/** What the answers of the environment come to, read off the script alone: an independent account
    of opening and polling a statement, without slots, arrays or handles. */
module Replies {
  import opened Oci
  import opened Statements
  import opened Wrappers

  /** The status a group of calls ends with, and the answers left. */
  datatype Reply = Reply(status: int, rest: seq<Turn>)

  /** ... with the last answer that was given. */
  datatype Asked = Asked(status: int, rest: seq<Turn>, last: Turn)

  /** `n` client-side calls, up to the first refusal. */
  function Asks(script: seq<Turn>, n: nat): (a: Asked)
    ensures Within(a.rest, script) && (a.status == STILL_EXECUTING ==> |a.rest| < |script|)
  {
    if n == 0 then Asked(SUCCESS, script, QUIET)
    else
      var t := Next(script);
      if t.local != SUCCESS || n == 1 then Asked(t.local, Tail(script), t) else Asks(Tail(script), n - 1)
  }

  /** Calls after calls are one sequence of calls. */
  lemma {:induction false} AsksThen(script: seq<Turn>, m: nat, n: nat)
    requires m > 0 && n > 0
    ensures var a := Asks(script, m); Asks(script, m + n) == if a.status != SUCCESS then a else Asks(a.rest, n)
    decreases m
  {
    if m > 1 && Next(script).local == SUCCESS {
      AsksThen(Tail(script), m - 1, n);
    }
  }

  /** `n` binds, up to the first refusal. */
  function BindReplies(script: seq<Turn>, n: nat): (r: Reply)
    ensures Within(r.rest, script) && (r.status == STILL_EXECUTING ==> |r.rest| < |script|)
  {
    if n == 0 then Reply(SUCCESS, script)
    else
      var t := Next(script);
      if t.bind != SUCCESS then Reply(t.bind, Tail(script)) else BindReplies(Tail(script), n - 1)
  }

  /** All binds are accepted exactly when the next `n` answers to binding are. */
  lemma {:induction false} BindsAccepted(script: seq<Turn>, n: nat)
    ensures BindReplies(script, n).status == SUCCESS <==> forall j :: 0 <= j < n ==> At(script, j).bind == SUCCESS
    decreases n
  {
    if n > 0 {
      BindsAccepted(Tail(script), n - 1);
      forall j | 0 < j < n
        ensures At(script, j) == At(Tail(script), j - 1)
      {
      }
      assert At(script, 0) == Next(script);
      if Next(script).bind == SUCCESS && forall j :: 0 <= j < n ==> At(script, j).bind == SUCCESS {
        forall j | 0 <= j < n - 1
          ensures At(Tail(script), j).bind == SUCCESS
        {
          assert At(script, j + 1).bind == SUCCESS;
        }
      }
    }
  }

  /** The bind with index `j` is reached: those before it are accepted. */
  ghost predicate Reached(script: seq<Turn>, j: nat) {
    forall i :: 0 <= i < j ==> At(script, i).bind == SUCCESS
  }

  /** Each attribute of a column takes three calls: get the parameter, read it, free it. The first five
      bring the type and the name, thirteen more the rest. */
  const CALLS_TO_NAME := 5
  const CALLS_AFTER_NAME := 13

  /** `_define_ocol_by_pos`: eighteen describing calls, a type that is supported, the define. */
  function ColumnReplies(script: seq<Turn>): (r: Reply)
    ensures Within(r.rest, script) && (r.status == STILL_EXECUTING ==> |r.rest| < |script|)
  {
    var a := Asks(script, CALLS_TO_NAME);
    if a.status != SUCCESS then Reply(a.status, a.rest)
    else
      var b := Asks(a.rest, CALLS_AFTER_NAME);
      if b.status != SUCCESS then Reply(b.status, b.rest)
      else if b.last.col.dbType.LobType? then Reply(UNSUPPORTED_DATA_TYPE, b.rest)
      else Reply(Next(b.rest).local, Tail(b.rest))
  }

  function ColumnsReplies(script: seq<Turn>, n: nat): (r: Reply)
    ensures Within(r.rest, script) && (r.status == STILL_EXECUTING ==> |r.rest| < |script|)
    decreases n
  {
    if n == 0 then Reply(SUCCESS, script)
    else
      var c := ColumnReplies(script);
      if c.status != SUCCESS then c else ColumnsReplies(c.rest, n - 1)
  }

  /** What follows the first successful execution of a query: the number of columns, then each of them. */
  function DescribeReplies(script: seq<Turn>): (r: Reply)
    ensures Within(r.rest, script) && (r.status == STILL_EXECUTING ==> |r.rest| < |script|)
  {
    var t := Next(script);
    if t.local != SUCCESS then Reply(t.local, Tail(script)) else ColumnsReplies(Tail(script), t.value)
  }

  // ------------------------------------------------------------ one call of open

  /** How one call leaves the slot it works on, and what it answers:
      Bounces: STILL_EXECUTING, the slot given back and no handle returned (`closed`: through `sqlo_close`);
      Refuses: a refusal, the slot given back;
      Returns: SUCCESS with the slot given back, after a refused bind;
      LosesBusy: STILL_EXECUTING with the slot taken but its statement gone;
      Loses: a refusal with the slot taken but its statement gone;
      Pends: STILL_EXECUTING, the query under way (`executed`: already executed once);
      Opens: SUCCESS, the statement open (`complete`: with every column of a query). */
  datatype Attempt =
    | Bounces(closed: bool, rest: seq<Turn>)
    | Refuses(status: int, rest: seq<Turn>)
    | Returns(rest: seq<Turn>)
    | LosesBusy(query: bool, rest: seq<Turn>)
    | Loses(status: int, rest: seq<Turn>)
    | Pends(executed: bool, rest: seq<Turn>)
    | Opens(query: bool, complete: bool, rest: seq<Turn>)
  {
    function Ret(): int {
      match this
      case Refuses(status, _) => status
      case Loses(status, _) => status
      case Returns(_) => SUCCESS
      case Opens(_, _, _) => SUCCESS
      case _ => STILL_EXECUTING
    }

    /** The caller's handle is set. */
    predicate Named() {
      Returns? || LosesBusy? || Pends? || Opens?
    }

    ghost predicate Sound(script: seq<Turn>) {
      && Within(rest, script)
      && (Ret() == STILL_EXECUTING ==> |rest| < |script|)
      && (Refuses? || Loses? ==> status != SUCCESS && status != STILL_EXECUTING)
    }
  }

  /** The one close of a failed `_sqlo_reopen`. Nobody repeats it. */
  function ClosedOnce(status: int, script: seq<Turn>): Attempt {
    if Next(script).free == SUCCESS then Refuses(status, Tail(script)) else Loses(status, Tail(script))
  }

  /** The doubled close of the other error exits. */
  function ClosedTwice(status: int, script: seq<Turn>): Attempt {
    if status == STILL_EXECUTING then Bounces(true, Tail(script)) else Refuses(status, Tail(script))
  }

  /** Executing a query; the first successful execution is followed by describing and defining. A query
      that is busy there will be executed again, and is not described any more. */
  function Launches(script: seq<Turn>, executed: bool): (a: Attempt)
    ensures a.Sound(script) && (a.Pends? || a.Opens? || a.Refuses? || a.Loses?)
  {
    var status := Next(script).execute;
    var rest := Tail(script);
    if status == STILL_EXECUTING then Pends(executed, rest)
    else if status != SUCCESS then (if executed then Refuses(status, Tail(rest)) else ClosedOnce(status, rest))
    else if executed then Opens(true, false, rest)
    else
      var d := DescribeReplies(rest);
      if d.status == SUCCESS then Opens(true, true, d.rest)
      else if d.status == STILL_EXECUTING then Pends(true, d.rest)
      else ClosedOnce(d.status, d.rest)
  }

  /** `_sqlo_reopen` of a prepared statement with `n` arguments. `stale`: its slot still holds defines. */
  function Binding(script: seq<Turn>, n: nat, query: bool, stale: bool): (a: Attempt)
    ensures a.Sound(script) && !a.Bounces?
  {
    var b := BindReplies(script, n);
    if b.status != SUCCESS then
      var free := Next(b.rest).free;
      if free == SUCCESS then Returns(Tail(b.rest))
      else if free == STILL_EXECUTING then LosesBusy(query, Tail(b.rest))
      else Loses(free, Tail(b.rest))
    else if !query then Opens(false, true, b.rest)
    else if stale then Opens(true, false, b.rest)
    else Launches(b.rest, false)
  }

  /** From the statement's type on. */
  function Typing(script: seq<Turn>, n: nat, stale: bool): (a: Attempt)
    ensures a.Sound(script) && (a.Bounces? ==> a.closed)
  {
    var t := Next(script);
    var rest := Tail(script);
    if t.local != SUCCESS then ClosedTwice(t.local, rest)
    else if t.value == STMT_DECLARE || t.value == STMT_BEGIN then Refuses(INVALID_STMT_TYPE, Tail(rest))
    else if t.value != STMT_SELECT then Binding(rest, n, false, stale)
    else if Next(rest).local != SUCCESS then ClosedTwice(Next(rest).local, Tail(rest))
    else Binding(Tail(rest), n, true, stale)
  }

  /** From preparing on. */
  function Preparing(script: seq<Turn>, n: nat, stale: bool): (a: Attempt)
    ensures a.Sound(script) && (a.Bounces? ==> a.closed)
  {
    var status := Next(script).prepare;
    if status != SUCCESS then ClosedTwice(status, Tail(script)) else Typing(Tail(script), n, stale)
  }

  /** The answers left when binding begins, from those to preparing on. */
  function BindAnswers(script: seq<Turn>): seq<Turn> {
    var rest := Tail(Tail(script));
    if Next(Tail(script)).value == STMT_SELECT then Tail(rest) else rest
  }

  /** The whole of opening a new statement. */
  function Opening(script: seq<Turn>, n: nat, stale: bool): (a: Attempt)
    ensures a.Sound(script)
  {
    var status := Next(script).alloc;
    if status == SUCCESS then Preparing(Tail(script), n, stale)
    else if status == STILL_EXECUTING then Bounces(false, Tail(script))
    else Refuses(status, Tail(script))
  }

  /** What an attempt comes to when it gets no handle; and it bounces without a close exactly then. */
  lemma AllocationDecides(script: seq<Turn>, n: nat, stale: bool)
    ensures var a := Opening(script, n, stale);
      var alloc := Next(script).alloc;
      && (alloc == STILL_EXECUTING ==> a == Bounces(false, Tail(script)))
      && (alloc != SUCCESS && alloc != STILL_EXECUTING ==> a == Refuses(alloc, Tail(script)))
      && (alloc == SUCCESS && a.Bounces? ==> a.closed)
  {
    hide Preparing;
  }

  // ------------------------------------------------------------------- polling

  /** What the caller's handle names. */
  datatype Held = Nobody | Pending(executed: bool) | Stripped(query: bool) | Open(query: bool, complete: bool)

  /** How polling ends: with a status and what the returned handle names, `alone` if no second slot was
      touched; or with a slot taken that the returned handle does not name. */
  datatype PollEnd = Ends(status: int, held: Held, alone: bool, rest: seq<Turn>) | Leaks

  const SQLO_OFF := 0

  /** Whether `sqlo_open2` takes the connection for non-blocking. A reply above zero is not treated as
      an error although no mode was read; the variable then holds anything. */
  predicate ReadsNonBlocking(t: Turn, nonBlocking: bool) {
    if t.mode == SUCCESS then nonBlocking else t.value == SQLO_OFF
  }

  /** Where polling stands: what the caller's handle names; whether the first free slot still holds defines;
      the same of the second, None when there is none. */
  datatype Standing = Standing(held: Held, stale: bool, next: Option<bool>)

  /** One call of `sqlo_open2`: polling goes on (`alone`: no second slot was touched), or is over. */
  datatype Move = Again(st: Standing, alone: bool, rest: seq<Turn>) | Over(e: PollEnd)
  {
    ghost predicate Sound(script: seq<Turn>) {
      match this
      case Again(st, _, rest) => Within(rest, script) && |rest| < |script| && !st.held.Open?
      case Over(e) => e.Ends? ==> e.status != STILL_EXECUTING && Within(e.rest, script)
    }
  }

  /** ... when the handle names nothing yet and the call comes to `a`. */
  function FirstMove(a: Attempt, st: Standing): (m: Move)
    requires a.Refuses? || a.Loses? ==> a.status != STILL_EXECUTING
    ensures forall script :: a.Sound(script) ==> m.Sound(script)
  {
    match a
    case Bounces(closed, rest) => Again(Standing(Nobody, st.stale && !closed, st.next), true, rest)
    case Pends(executed, rest) => Again(Standing(Pending(executed), false, st.next), true, rest)
    case LosesBusy(query, rest) => Again(Standing(Stripped(query), false, st.next), true, rest)
    case Loses(_, _) => Over(Leaks)
    case Opens(query, complete, rest) => Over(Ends(SUCCESS, Open(query, complete), true, rest))
    case Refuses(status, rest) => Over(Ends(status, Nobody, true, rest))
    case Returns(rest) => Over(Ends(SUCCESS, Nobody, true, rest))
  }

  /** ... when it resumes the query under way. */
  function ResumingMove(a: Attempt, next: Option<bool>): (m: Move)
    requires a.Pends? || a.Opens? || a.Refuses? || a.Loses?
    requires a.Refuses? || a.Loses? ==> a.status != STILL_EXECUTING
    ensures forall script :: a.Sound(script) ==> m.Sound(script)
  {
    match a
    case Pends(executed, rest) => Again(Standing(Pending(executed), false, next), true, rest)
    case Loses(status, rest) => Over(Ends(status, Stripped(true), true, rest))
    case Refuses(status, rest) => Over(Ends(status, Nobody, true, rest))
    case Opens(query, complete, rest) => Over(Ends(SUCCESS, Open(query, complete), true, rest))
  }

  /** ... when the handle names a slot but the call goes for another, which `stale` belongs to. */
  function OtherMove(a: Attempt, held: Held, stale: bool): (m: Move)
    requires !held.Open? && (a.Refuses? || a.Loses? ==> a.status != STILL_EXECUTING)
    ensures forall script :: a.Sound(script) ==> m.Sound(script)
  {
    match a
    case Bounces(closed, rest) => Again(Standing(held, false, Some(stale && !closed)), false, rest)
    case Refuses(status, rest) => Over(Ends(status, held, false, rest))
    case _ => Over(Leaks)
  }

  function PollMove(script: seq<Turn>, n: nat, nonBlocking: bool, st: Standing): (m: Move)
    requires !st.held.Open?
    ensures m.Sound(script)
  {
    var t := Next(script);
    var rest := Tail(script);
    if t.mode == STILL_EXECUTING then Again(st, true, rest)
    else if t.mode < 0 then Over(Ends(t.mode, st.held, true, rest))
    else if st.held.Nobody? then FirstMove(Opening(rest, n, st.stale), st)
    else if st.held.Pending? && ReadsNonBlocking(t, nonBlocking) then
      ResumingMove(Launches(rest, st.held.executed), st.next)
    else if st.next.None? then Over(Ends(ERRMALLOC, st.held, true, rest))
    else OtherMove(Opening(rest, n, st.next.value), st.held, st.next.value)
  }

  /** Calling `sqlo_open2` with `n` arguments while it answers STILL_EXECUTING. */
  function Polling(script: seq<Turn>, n: nat, nonBlocking: bool, st: Standing): (e: PollEnd)
    requires !st.held.Open?
    ensures e.Ends? ==> e.status != STILL_EXECUTING && Within(e.rest, script)
    decreases |script|
  {
    match PollMove(script, n, nonBlocking, st)
    case Over(e) => e
    case Again(st', alone, rest) =>
      var e := Polling(rest, n, nonBlocking, st');
      if alone then e else Disturbed(e)
  }

  /** The end of a polling that touched a second slot. */
  function Disturbed(e: PollEnd): PollEnd {
    match e
    case Ends(status, held, _, rest) => Ends(status, held, false, rest)
    case Leaks => Leaks
  }

  /** Whether polling leaves a query that is under way pending for good: the first mode that is neither busy nor
      lets the query resume comes before the query is done. The exception is a call that then fails with
      STILL_EXECUTING before it has a statement of its own: polling comes back with the same handle. */
  predicate Strands(script: seq<Turn>, n: nat, nonBlocking: bool, next: Option<bool>, executed: bool)
    decreases |script|
  {
    var t := Next(script);
    var rest := Tail(script);
    if t.mode == STILL_EXECUTING then Strands(rest, n, nonBlocking, next, executed)
    else if t.mode >= 0 && ReadsNonBlocking(t, nonBlocking) then
      var a := Launches(rest, executed);
      a.Pends? && Strands(a.rest, n, nonBlocking, next, a.executed)
    else if t.mode < 0 || next.None? then true
    else
      var a := Opening(rest, n, next.value);
      a.Bounces? ==> Strands(a.rest, n, nonBlocking, Some(next.value && !a.closed), executed)
  }

  lemma {:induction false} StrandsExactly(script: seq<Turn>, n: nat, nonBlocking: bool, st: Standing)
    requires st.held.Pending?
    ensures var e := Polling(script, n, nonBlocking, st);
      (e.Leaks? || e.held.Pending?) <==> Strands(script, n, nonBlocking, st.next, st.held.executed)
    decreases |script|
  {
    hide Launches, Opening;
    var m := PollMove(script, n, nonBlocking, st);
    if m.Again? {
      StrandsExactly(m.rest, n, nonBlocking, m.st);
    }
  }

  /** The first execution of a query under way that is not busy, the mode being readable or busy. */
  function FirstExecution(script: seq<Turn>): (r: Reply)
    ensures Within(r.rest, script)
    decreases |script|
  {
    if Next(script).mode == STILL_EXECUTING then FirstExecution(Tail(script))
    else
      var status := Next(Tail(script)).execute;
      var rest := Tail(Tail(script));
      if status == STILL_EXECUTING then FirstExecution(rest) else Reply(status, rest)
  }

  /** The mode of a connection can be read, sooner or later. */
  ghost predicate ModeReadable(script: seq<Turn>) {
    forall t <- script :: t.mode == SUCCESS || t.mode == STILL_EXECUTING
  }

  /** When a polled query ends open with all its columns, and when it ends open without: the first goes by the
      describing and defining answers after its first successful execution. If one of those is
      STILL_EXECUTING, the query is executed again and opened as it is. */
  lemma {:induction false} CompleteExactly(script: seq<Turn>, n: nat, st: Standing)
    requires ModeReadable(script) && st.held == Pending(false)
    ensures var e := Polling(script, n, true, st);
      var f := FirstExecution(script);
      var d := DescribeReplies(f.rest);
      && (e.Ends? && e.held == Open(true, true) <==> f.status == SUCCESS && d.status == SUCCESS)
      && (e.Ends? && e.held == Open(true, false) <==>
            f.status == SUCCESS && d.status == STILL_EXECUTING && FirstExecution(d.rest).status == SUCCESS)
    decreases |script|
  {
    hide DescribeReplies, Opening;
    var m := PollMove(script, n, true, st);
    if m.Again? {
      assert Within(m.rest, script);
      if m.st.held == Pending(false) {
        CompleteExactly(m.rest, n, m.st);
      } else {
        ReexecutedOpens(m.rest, n, m.st);
      }
    }
  }

  lemma {:induction false} ReexecutedOpens(script: seq<Turn>, n: nat, st: Standing)
    requires ModeReadable(script) && st.held == Pending(true)
    ensures var e := Polling(script, n, true, st);
      && e.Ends? && e.held != Open(true, true)
      && (e.held == Open(true, false) <==> FirstExecution(script).status == SUCCESS)
    decreases |script|
  {
    hide DescribeReplies, Opening;
    var m := PollMove(script, n, true, st);
    if m.Again? {
      assert Within(m.rest, script);
      ReexecutedOpens(m.rest, n, m.st);
    }
  }

  /** The answers left once a statement is allocated, prepared and found to be a query, its prefetch count set and
      `n` binds accepted. */
  function QueryBound(script: seq<Turn>, n: nat): (rest: Option<seq<Turn>>)
    ensures rest.Some? ==> Within(rest.value, script)
  {
    var s1 := Tail(script);
    var s2 := Tail(s1);
    var s3 := Tail(s2);
    if Next(script).alloc != SUCCESS || Next(s1).prepare != SUCCESS || Next(s2).local != SUCCESS
       || Next(s2).value != STMT_SELECT || Next(s3).local != SUCCESS then None
    else
      var b := BindReplies(Tail(s3), n);
      if b.status == SUCCESS then Some(b.rest) else None
  }

  /** The answers left when polling is about to execute a query for the first time. A call that bounces is
      followed by another with a new statement. */
  function ToLaunch(script: seq<Turn>, n: nat): (rest: Option<seq<Turn>>)
    ensures rest.Some? ==> Within(rest.value, script)
    decreases |script|
  {
    if Next(script).mode == STILL_EXECUTING then ToLaunch(Tail(script), n)
    else
      var a := Opening(Tail(script), n, false);
      if a.Bounces? then ToLaunch(a.rest, n) else QueryBound(Tail(script), n)
  }

  /** The first execution that is not busy, the present call being the first. */
  function Executing(script: seq<Turn>): (r: Reply)
    ensures Within(r.rest, script)
  {
    var status := Next(script).execute;
    if status == STILL_EXECUTING then FirstExecution(Tail(script)) else Reply(status, Tail(script))
  }

  lemma OpensQuery(script: seq<Turn>, n: nat)
    ensures var rest := QueryBound(script, n);
      var a := Opening(script, n, false);
      if rest.Some? then a == Launches(rest.value, false) else !a.Pends? && (a.Opens? ==> !a.query)
  {
    hide Launches, BindReplies;
  }

  /** When polling a statement from the start ends with a query open and all its columns, and when without: the
      first goes by the describing and defining answers after its first successful execution. */
  lemma {:induction false} OpensCompletely(script: seq<Turn>, n: nat, next: Option<bool>)
    requires ModeReadable(script)
    ensures var e := Polling(script, n, true, Standing(Nobody, false, next));
      var l := ToLaunch(script, n);
      if l.None? then e.Ends? && e.held.Open? ==> !e.held.query
      else
        var f := Executing(l.value);
        var d := DescribeReplies(f.rest);
        && (e.Ends? && e.held == Open(true, true) <==> f.status == SUCCESS && d.status == SUCCESS)
        && (e.Ends? && e.held == Open(true, false) <==>
              f.status == SUCCESS && d.status == STILL_EXECUTING && FirstExecution(d.rest).status == SUCCESS)
    decreases |script|
  {
    hide DescribeReplies, Opening, QueryBound;
    var st := Standing(Nobody, false, next);
    OpensQuery(Tail(script), n);
    var m := PollMove(script, n, true, st);
    if m.Again? {
      assert Within(m.rest, script);
      match m.st.held
      case Nobody => OpensCompletely(m.rest, n, next);
      case Stripped(_) => StrippedEnds(m.rest, n, true, m.st);
      case Pending(executed) =>
        if executed {
          ReexecutedOpens(m.rest, n, m.st);
        } else {
          CompleteExactly(m.rest, n, m.st);
        }
      case Open(_, _) =>
    }
  }

  /** Polling a query under way in non-blocking mode keeps to its slot and ends; only a query is opened. */
  lemma {:induction false} PendingOpens(script: seq<Turn>, n: nat, st: Standing)
    requires ModeReadable(script) && st.held.Pending?
    ensures var e := Polling(script, n, true, st);
      && e.Ends? && e.alone && !e.held.Pending? && (e.held.Open? ==> e.held.query)
      && (e.held.Open? <==> e.status == SUCCESS)
    decreases |script|
  {
    hide DescribeReplies, Opening;
    var m := PollMove(script, n, true, st);
    if m.Again? {
      assert Within(m.rest, script);
      PendingOpens(m.rest, n, m.st);
    }
  }

  /** When handle frees and mode queries are accepted, the mode possibly after a while, and nothing is ever busy in
      blocking mode, polling loses nothing and touches one slot only. */
  lemma {:induction false} NothingLost(script: seq<Turn>, n: nat, nonBlocking: bool, st: Standing)
    requires ModeReadable(script) && (forall t <- script :: t.free == SUCCESS)
    requires nonBlocking || NeverBusy(script)
    requires st.held.Nobody? || (st.held.Pending? && nonBlocking)
    ensures var e := Polling(script, n, nonBlocking, st);
      e.Ends? && e.alone && (e.held.Nobody? || (e.held.Open? && e.status == SUCCESS))
    decreases |script|
  {
    hide Opening, Launches;
    var t := Next(script);
    var rest := Tail(script);
    OpeningLosesNothing(rest, n, st.stale);
    LaunchesWell(rest, st.held.Pending? && st.held.executed);
    var m := PollMove(script, n, nonBlocking, st);
    if m.Again? {
      NothingLost(m.rest, n, nonBlocking, m.st);
    }
  }

  lemma LaunchesWell(script: seq<Turn>, executed: bool)
    requires forall t <- script :: t.free == SUCCESS
    ensures !Launches(script, executed).Loses?
    ensures NeverBusy(script) ==> !Launches(script, executed).Pends?
  {
    var rest := Tail(script);
    var d := DescribeReplies(rest);
    assert Within(d.rest, script);
    if NeverBusy(script) {
      DescribingNotBusy(rest);
    }
  }

  lemma DescribingNotBusy(script: seq<Turn>)
    requires forall t <- script :: t.local != STILL_EXECUTING
    ensures DescribeReplies(script).status != STILL_EXECUTING
  {
    if Next(script).local == SUCCESS {
      ColumnsNotBusy(Tail(script), Next(script).value);
    }
  }

  lemma {:induction false} ColumnsNotBusy(script: seq<Turn>, n: nat)
    requires forall t <- script :: t.local != STILL_EXECUTING
    ensures ColumnsReplies(script, n).status != STILL_EXECUTING
    decreases n
  {
    if n > 0 {
      AsksNotBusy(script, CALLS_TO_NAME);
      var a := Asks(script, CALLS_TO_NAME);
      assert Within(a.rest, script);
      AsksNotBusy(a.rest, CALLS_AFTER_NAME);
      var c := ColumnReplies(script);
      assert Within(c.rest, script);
      assert Within(Asks(a.rest, CALLS_AFTER_NAME).rest, script);
      if c.status == SUCCESS {
        ColumnsNotBusy(c.rest, n - 1);
      }
    }
  }

  lemma {:induction false} AsksNotBusy(script: seq<Turn>, n: nat)
    requires forall t <- script :: t.local != STILL_EXECUTING
    ensures Asks(script, n).status != STILL_EXECUTING
    decreases n
  {
    if n > 1 {
      AsksNotBusy(Tail(script), n - 1);
    }
  }

  ghost predicate NeverBusy(script: seq<Turn>) {
    forall t <- script :: t.execute != STILL_EXECUTING && t.local != STILL_EXECUTING
  }

  lemma OpeningLosesNothing(script: seq<Turn>, n: nat, stale: bool)
    requires forall t <- script :: t.free == SUCCESS
    ensures var a := Opening(script, n, stale); !a.Loses? && !a.LosesBusy? && (NeverBusy(script) ==> !a.Pends?)
  {
    hide Typing;
    var s2 := Tail(Tail(script));
    assert Within(s2, script);
    TypingLosesNothing(s2, n, stale);
  }

  lemma TypingLosesNothing(script: seq<Turn>, n: nat, stale: bool)
    requires forall t <- script :: t.free == SUCCESS
    ensures var a := Typing(script, n, stale); !a.Loses? && !a.LosesBusy? && (NeverBusy(script) ==> !a.Pends?)
  {
    hide Binding;
    var s1 := Tail(script);
    assert Within(s1, script) && Within(Tail(s1), script);
    BindingLosesNothing(s1, n, false, stale);
    BindingLosesNothing(Tail(s1), n, true, stale);
  }

  lemma BindingLosesNothing(script: seq<Turn>, n: nat, query: bool, stale: bool)
    requires forall t <- script :: t.free == SUCCESS
    ensures var a := Binding(script, n, query, stale); !a.Loses? && !a.LosesBusy? && (NeverBusy(script) ==> !a.Pends?)
  {
    hide Launches;
    var b := BindReplies(script, n);
    assert Within(b.rest, script);
    LaunchesWell(b.rest, false);
  }

  // ----------------------------------------------------------------- sqlo_run

  /** Fetching a query, or executing anything else, while that is busy. */
  function Fetching(script: seq<Turn>, query: bool): (r: Reply)
    decreases |script|
  {
    var status := if query then Next(script).fetch else Next(script).execute;
    if status == STILL_EXECUTING then Fetching(Tail(script), query) else Reply(status, Tail(script))
  }

  /** The answer to the final close, after fetching and, if the statement is open, counting its rows. */
  function FinalFree(script: seq<Turn>, held: Held): int
    requires held.Open? || held.Pending?
  {
    var f := Fetching(script, held.Pending? || held.query);
    Next(if 0 <= f.status && held.Open? then Tail(f.rest) else f.rest).free
  }

  /** The attempt that polling in non-blocking mode ends with in the slot it began with. */
  function LastTry(script: seq<Turn>, n: nat, stale: bool): (a: Attempt)
    ensures !a.Bounces? && !a.Pends? && (a.Refuses? ==> a.status != SUCCESS)
    decreases |script|
  {
    if Next(script).mode == STILL_EXECUTING then LastTry(Tail(script), n, stale)
    else
      var a := Opening(Tail(script), n, stale);
      if a.Bounces? then LastTry(a.rest, n, stale && !a.closed)
      else if a.Pends? then LastResumed(a.rest, a.executed)
      else a
  }

  /** The answers left when that attempt begins to bind. */
  function LastBinding(script: seq<Turn>, n: nat, stale: bool): seq<Turn>
    decreases |script|
  {
    if Next(script).mode == STILL_EXECUTING then LastBinding(Tail(script), n, stale)
    else
      var a := Opening(Tail(script), n, stale);
      if a.Bounces? then LastBinding(a.rest, n, stale && !a.closed) else BindAnswers(Tail(Tail(script)))
  }

  function LastResumed(script: seq<Turn>, executed: bool): (a: Attempt)
    ensures (a.Opens? || a.Refuses? || a.Loses?) && (a.Refuses? ==> a.status != SUCCESS)
    decreases |script|
  {
    if Next(script).mode == STILL_EXECUTING then LastResumed(Tail(script), executed)
    else
      var a := Launches(Tail(script), executed);
      if a.Pends? then LastResumed(a.rest, a.executed) else a
  }

  /** Polling in non-blocking mode ends as that attempt does, unless a close in it was refused. */
  lemma {:induction false} EndsAsLastTry(script: seq<Turn>, n: nat, stale: bool, next: Option<bool>)
    requires ModeReadable(script)
    ensures var e := Polling(script, n, true, Standing(Nobody, stale, next));
      var a := LastTry(script, n, stale);
      if a.Loses? || a.LosesBusy? then e.Leaks? || e.held.Stripped?
      else e == Ends(a.Ret(), if a.Opens? then Open(a.query, a.complete) else Nobody, true, a.rest)
    decreases |script|
  {
    hide Launches, Opening;
    var m := PollMove(script, n, true, Standing(Nobody, stale, next));
    if m.Again? {
      assert Within(m.rest, script);
      match m.st.held
      case Nobody => EndsAsLastTry(m.rest, n, m.st.stale, next);
      case Stripped(_) => StrippedEnds(m.rest, n, true, m.st);
      case Pending(executed) => EndsAsLastResumed(m.rest, n, m.st);
      case Open(_, _) =>
    }
  }

  /** Whether polling with a handle whose statement is gone ends in an error, or leaves another slot behind: if
      neither, it keeps the handle, and the final close of `sqlo_run` still releases the slot. */
  predicate StrippedLoses(script: seq<Turn>, n: nat, next: Option<bool>)
    decreases |script|
  {
    var t := Next(script);
    var rest := Tail(script);
    if t.mode == STILL_EXECUTING then StrippedLoses(rest, n, next)
    else if t.mode < 0 || next.None? then true
    else
      match Opening(rest, n, next.value)
      case Bounces(closed, rest') => StrippedLoses(rest', n, Some(next.value && !closed))
      case Refuses(status, _) => status < 0
      case _ => true
  }

  lemma {:induction false} StrippedEnds(script: seq<Turn>, n: nat, nonBlocking: bool, st: Standing)
    requires st.held.Stripped?
    ensures var e := Polling(script, n, nonBlocking, st);
      && (e.Ends? ==> e.held.Stripped?)
      && (e.Leaks? || e.status < 0 <==> StrippedLoses(script, n, st.next))
    decreases |script|
  {
    hide Opening;
    var m := PollMove(script, n, nonBlocking, st);
    if m.Again? {
      StrippedEnds(m.rest, n, nonBlocking, m.st);
    }
  }

  /** Whether a close in `_sqlo_reopen` costs `sqlo_run` a slot, in non-blocking mode. Lost on the first call of an
      attempt, the slot is named by no handle; after a busy answer the handle names it, and only an
      error, or a slot taken in its stead, keeps the final close away. */
  predicate ReopenLoses(script: seq<Turn>, n: nat, stale: bool, next: Option<bool>)
    decreases |script|
  {
    if Next(script).mode == STILL_EXECUTING then ReopenLoses(Tail(script), n, stale, next)
    else
      match Opening(Tail(script), n, stale)
      case Bounces(closed, rest) => ReopenLoses(rest, n, stale && !closed, next)
      case Pends(executed, rest) => ResumedLoses(rest, executed)
      case LosesBusy(_, rest) => StrippedLoses(rest, n, next)
      case Loses(_, _) => true
      case _ => false
  }

  predicate ResumedLoses(script: seq<Turn>, executed: bool)
    decreases |script|
  {
    if Next(script).mode == STILL_EXECUTING then ResumedLoses(Tail(script), executed)
    else
      match Launches(Tail(script), executed)
      case Pends(executed', rest) => ResumedLoses(rest, executed')
      case Loses(status, _) => status < 0
      case _ => false
  }

  lemma {:induction false} LosesExactly(script: seq<Turn>, n: nat, stale: bool, next: Option<bool>)
    requires ModeReadable(script)
    ensures var e := Polling(script, n, true, Standing(Nobody, stale, next));
      var a := LastTry(script, n, stale);
      ReopenLoses(script, n, stale, next) <==> (a.Loses? || a.LosesBusy?) && (e.Leaks? || e.status < 0)
    decreases |script|
  {
    hide Launches, Opening;
    var m := PollMove(script, n, true, Standing(Nobody, stale, next));
    if m.Again? {
      assert Within(m.rest, script);
      match m.st.held
      case Nobody => LosesExactly(m.rest, n, m.st.stale, next);
      case Stripped(_) => StrippedEnds(m.rest, n, true, m.st);
      case Pending(executed) => ResumedLosesExactly(m.rest, n, m.st);
      case Open(_, _) =>
    }
  }

  lemma {:induction false} ResumedLosesExactly(script: seq<Turn>, n: nat, st: Standing)
    requires ModeReadable(script) && st.held.Pending?
    ensures var e := Polling(script, n, true, st);
      ResumedLoses(script, st.held.executed) <==>
        LastResumed(script, st.held.executed).Loses? && (e.Leaks? || e.status < 0)
    decreases |script|
  {
    hide Launches, Opening;
    var m := PollMove(script, n, true, st);
    if m.Again? {
      assert Within(m.rest, script);
      ResumedLosesExactly(m.rest, n, m.st);
    }
  }

  lemma {:induction false} EndsAsLastResumed(script: seq<Turn>, n: nat, st: Standing)
    requires ModeReadable(script) && st.held.Pending?
    ensures var e := Polling(script, n, true, st);
      var a := LastResumed(script, st.held.executed);
      if a.Loses? then e.Ends? && e.held.Stripped?
      else e == Ends(a.Ret(), if a.Opens? then Open(a.query, a.complete) else Nobody, true, a.rest)
    decreases |script|
  {
    hide Launches, Opening;
    var m := PollMove(script, n, true, st);
    if m.Again? {
      assert Within(m.rest, script);
      EndsAsLastResumed(m.rest, n, m.st);
    }
  }

  /** Whether polling in non-blocking mode prepares the statement no more than once: an attempt that bounces after
      its handle was allocated, or loses the slot while busy with another one free, is followed by an
      attempt on a new handle, unless no allocation is accepted any more. */
  predicate PreparesOnce(script: seq<Turn>, n: nat, stale: bool, next: Option<bool>)
    decreases |script|
  {
    if Next(script).mode == STILL_EXECUTING then PreparesOnce(Tail(script), n, stale, next)
    else
      match Opening(Tail(script), n, stale)
      case Bounces(closed, rest) => if closed then AllocatesNoMore(rest) else PreparesOnce(rest, n, stale, next)
      case LosesBusy(_, rest) => next.None? || AllocatesNoMore(rest)
      case _ => true
  }

  /** No further attempt gets a handle. */
  predicate AllocatesNoMore(script: seq<Turn>)
    decreases |script|
  {
    var alloc := Next(Tail(script)).alloc;
    if Next(script).mode == STILL_EXECUTING then AllocatesNoMore(Tail(script))
    else if alloc == STILL_EXECUTING then AllocatesNoMore(Tail(Tail(script)))
    else alloc != SUCCESS
  }

  /** Whether `sqlo_run` leaves a slot taken, given how its polling ended: a slot nobody names, one it returns
      without closing, or one whose final close meets a refusal other than STILL_EXECUTING. */
  predicate RunLoses(e: PollEnd) {
    match e
    case Leaks => true
    case Ends(status, held, _, rest) =>
      if status < 0 then !held.Nobody?
      else (held.Open? || held.Pending?) && FinalFree(rest, held) != SUCCESS && FinalFree(rest, held) != STILL_EXECUTING
  }

  // ---------------------------------------------------- what the caller is told

  /** How polling ends for the caller: its status, what the returned handle names, and the answers left. */
  datatype Answer = Answer(status: int, held: Held, rest: seq<Turn>)

  /** One call of `sqlo_open2`: it has to be repeated, or tells its end. */
  datatype Call = Repeats(held: Held, free: seq<bool>, rest: seq<Turn>) | Tells(answer: Answer)
  {
    ghost predicate Sound(script: seq<Turn>) {
      match this
      case Repeats(held, _, rest) => |rest| < |script| && !held.Open?
      case Tells(answer) => answer.status != STILL_EXECUTING
    }
  }

  /** ... that resumes a query. */
  function Resumed(script: seq<Turn>, executed: bool, free: seq<bool>): (c: Call)
    ensures c.Sound(script)
  {
    match Launches(script, executed)
    case Pends(executed', rest) => Repeats(Pending(executed'), free, rest)
    case Opens(query, complete, rest) => Tells(Answer(SUCCESS, Open(query, complete), rest))
    case Refuses(status, rest) => Tells(Answer(status, Nobody, rest))
    case Loses(status, rest) => Tells(Answer(status, Stripped(true), rest))
  }

  /** ... that goes for a new statement, in the first of the slots that are free. */
  function Anew(script: seq<Turn>, n: nat, held: Held, free: seq<bool>): (c: Call)
    requires !held.Open? && free != []
    ensures c.Sound(script)
  {
    match Opening(script, n, free[0])
    case Bounces(closed, rest) => Repeats(held, [free[0] && !closed] + free[1..], rest)
    case Pends(executed, rest) => Repeats(Pending(executed), free[1..], rest)
    case LosesBusy(query, rest) => Repeats(Stripped(query), free[1..], rest)
    case Opens(query, complete, rest) => Tells(Answer(SUCCESS, Open(query, complete), rest))
    case Returns(rest) => Tells(Answer(SUCCESS, Nobody, rest))
    case Refuses(status, rest) => Tells(Answer(status, held, rest))
    case Loses(status, rest) => Tells(Answer(status, held, rest))
  }

  /** `free` tells of each free slot, in order, whether it still holds defines; one that is left taken is
      not offered again. */
  function Calling(script: seq<Turn>, n: nat, nonBlocking: bool, held: Held, free: seq<bool>): (c: Call)
    requires !held.Open?
    ensures c.Sound(script)
  {
    var t := Next(script);
    var rest := Tail(script);
    if t.mode == STILL_EXECUTING then Repeats(held, free, rest)
    else if t.mode < 0 then Tells(Answer(t.mode, held, rest))
    else if held.Pending? && ReadsNonBlocking(t, nonBlocking) then Resumed(rest, held.executed, free)
    else if free == [] then Tells(Answer(ERRMALLOC, held, rest))
    else Anew(rest, n, held, free)
  }

  /** Calling `sqlo_open2` while it answers STILL_EXECUTING, in either mode and for every reply. */
  function Answering(script: seq<Turn>, n: nat, nonBlocking: bool, held: Held, free: seq<bool>): (a: Answer)
    requires !held.Open?
    ensures a.status != STILL_EXECUTING
    decreases |script|
  {
    match Calling(script, n, nonBlocking, held, free)
    case Repeats(held', free', rest) => Answering(rest, n, nonBlocking, held', free')
    case Tells(answer) => answer
  }

  /** What `sqlo_run` returns: the error polling ended with; INVALID_STMT_HANDLE when its handle names nothing; the
      error of fetching or executing; for an open statement its row count, or what counting replied; else
      INVALID_STMT_HANDLE. */
  function RunAnswer(script: seq<Turn>, n: nat, nonBlocking: bool, free: seq<bool>): int {
    var a := Answering(script, n, nonBlocking, Nobody, free);
    if a.status < 0 then a.status
    else if a.held.Nobody? then INVALID_STMT_HANDLE
    else
      var f := Fetching(a.rest, a.held.Pending? || a.held.query);
      if f.status < 0 then f.status
      else if !a.held.Open? then INVALID_STMT_HANDLE
      else if Next(f.rest).local == SUCCESS then Next(f.rest).value
      else Next(f.rest).local
  }

  // ------------------------------------------------------------------ sessions

  /** The first reply to OCISessionBegin that is not busy; ERROR with code 3123 is. */
  function SessionReply(script: seq<Turn>): (r: Reply)
    decreases |script|
  {
    var t := Next(script);
    if t.link == STILL_EXECUTING || (t.link == ERROR && t.value == 3123) then SessionReply(Tail(script))
    else Reply(t.link, Tail(script))
  }

  /** The first reply to a client-side call that is not busy. */
  function AttributeReply(script: seq<Turn>): (r: Reply)
    decreases |script|
  {
    if Next(script).local == STILL_EXECUTING then AttributeReply(Tail(script))
    else Reply(Next(script).local, Tail(script))
  }

  /** The first reply to OCISessionEnd that is not busy. */
  function EndReply(script: seq<Turn>): (r: Reply)
    decreases |script|
  {
    if Next(script).link == STILL_EXECUTING then EndReply(Tail(script)) else Reply(Next(script).link, Tail(script))
  }

  /** Beginning a session: user name and password set, OCISessionBegin, the session attached to the service
      context. */
  predicate BeginAccepted(script: seq<Turn>) {
    var b := SessionReply(After(script, 2));
    && At(script, 0).local == SUCCESS && At(script, 1).local == SUCCESS
    && b.status == SUCCESS && AttributeReply(b.rest).status == SUCCESS
  }

  /** ... or the first refusal. */
  function BeginReply(script: seq<Turn>): int {
    var b := SessionReply(After(script, 2));
    if At(script, 0).local != SUCCESS then At(script, 0).local
    else if At(script, 1).local != SUCCESS then At(script, 1).local
    else if b.status != SUCCESS then b.status
    else AttributeReply(b.rest).status
  }
}
