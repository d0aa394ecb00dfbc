/** One statement slot in conversation with the environment: closing, preparing, binding,
    defining, (re)opening and fetching. A cursor is the slot's state, the environment and the
    connection's last status, which is also what each operation returns. */
module Cursors {
  import opened Oci
  import opened Statements
  import opened Replies

  datatype Cursor = Cursor(s: State, oci: Oracle, status: int) {
    ghost predicate Ok() { s.Ok() }
  }

  /** What every operation respects: array invariants, and that a reply of
      STILL_EXECUTING has used up one of the environment's answers. */
  ghost predicate Progress(k: Cursor, r: Cursor) {
    && r.Ok()
    && Within(r.oci.script, k.oci.script)
    && (r.status == STILL_EXECUTING ==> |r.oci.script| < |k.oci.script|)
  }

  // --------------------------------------------------------------------- close

  /** `sqlo_close`. When freeing the OCI handle fails the slot stays taken, without a handle. */
  function Close(k: Cursor, maxLong: nat): (r: Cursor)
    requires k.Ok()
    ensures Progress(k, r)
  {
    var s := k.s.(binds := ResetBinds(k.s.binds), defs := DropDefines(k.s.defs, maxLong), handle := NULL);
    if k.s.handle == NULL then Cursor(Released(s), k.oci, SUCCESS)
    else
      var free := k.oci.Now().free;
      var oci := k.oci.Rest().(freed := k.oci.freed + multiset{k.s.handle});
      Cursor(if free == SUCCESS then Released(s) else s, oci, free)
  }

  // ------------------------------------------------------------------- prepare

  /** OCIHandleAlloc for a statement handle into the slot; nothing was reported for it yet. A refusal releases
      the slot. */
  function Allocate(k: Cursor): (r: Cursor)
    requires k.Ok()
    ensures Progress(k, r)
  {
    var alloc := k.oci.Now().alloc;
    var oci := k.oci.Rest();
    if alloc != SUCCESS then Cursor(Released(k.s), oci, alloc)
    else
      var h := oci.last + 1;
      Cursor(k.s.(handle := h), oci.(last := h, columns := oci.columns - {h}), SUCCESS)
  }

  /** `_prepare`, which also asks for the statement type. */
  function Prepare(k: Cursor): (r: Cursor)
    requires k.Ok()
    ensures Progress(k, r)
  {
    var prepare := k.oci.Now().prepare;
    var oci := k.oci.Rest().(prepared := k.oci.prepared + multiset{k.s.handle});
    if prepare != SUCCESS then Cursor(k.s, oci, prepare)
    else
      var s := k.s.(prepared := true);
      var t := oci.Now();
      Cursor(if t.local == SUCCESS then s.(stype := t.value) else s, oci.Rest(), t.local)
  }

  /** A call that only sets or reads a client-side attribute. */
  function Local(k: Cursor): (r: Cursor)
    requires k.Ok()
    ensures Progress(k, r)
  {
    Cursor(k.s, k.oci.Rest(), k.oci.Now().local)
  }

  // ---------------------------------------------------------------------- bind

  /** Binding touches the bind arrays and the positions OCI holds, nothing else. */
  ghost predicate OnlyBinds(k: Cursor, r: Cursor) {
    && r.s == k.s.(binds := r.s.binds)
    && r.oci == k.oci.(script := r.oci.script, bound := r.oci.bound)
  }

  /** `_bind_by_pos` at index `p`, growing the arrays if they do not reach that far; an array parameter takes
      a second call. */
  function BindByPos(k: Cursor, p: nat, isArray: bool): (r: Cursor)
    requires k.Ok()
    ensures Progress(k, r) && OnlyBinds(k, r) && (p < k.s.binds.size ==> r.s.binds.size == k.s.binds.size)
  {
    if !k.s.prepared then k.(status := STMT_NOT_PARSED)
    else
      var b := GrowBinds(k.s.binds, p + 1);
      var t := k.oci.Now();
      var oci := k.oci.Rest();
      if t.bind != SUCCESS then Cursor(k.s.(binds := b), oci, t.bind)
      else
        var b1 := b.(ptrs := b.ptrs[p := t.value + 1]);
        var skip := if isArray then oci.Now().bind else SUCCESS;
        var oci1 := if isArray then oci.Rest() else oci;
        if skip != SUCCESS then Cursor(k.s.(binds := b1), oci1, skip)
        else
          Cursor(k.s.(binds := b1.(num := if b.num < p + 1 then p + 1 else b.num)),
                 oci1.(bound := oci1.bound + multiset{(k.s.handle, p + 1)}), SUCCESS)
  }

  /** One argument of `_bind_argv`; empty text stands for NULL. */
  function BindOne(k: Cursor, p: nat, arg: string): (r: Cursor)
    requires k.Ok() && p < k.s.binds.size
    ensures Progress(k, r) && r.s.binds.size == k.s.binds.size && OnlyBinds(k, r)
  {
    var b := k.s.binds.(inds := k.s.binds.inds[p := if arg == "" then NULL_IND else NOT_NULL_IND]);
    BindByPos(k.(s := k.s.(binds := b)), p, false)
  }

  /** `sqlo_bind_by_name` on a parameter that is not a cursor. */
  function BindByName(k: Cursor, isArray: bool): (r: Cursor)
    requires k.Ok()
    ensures Progress(k, r) && OnlyBinds(k, r)
  {
    if !k.s.prepared then k.(status := STMT_NOT_PARSED)
    else
      var t := k.oci.Now();
      var oci := k.oci.Rest();
      var skip := if t.bind == SUCCESS && isArray then oci.Now().bind else SUCCESS;
      var oci1 := if t.bind == SUCCESS && isArray then oci.Rest() else oci;
      Cursor(k.s.(binds := BindNext(k.s.binds, NameReply(t, skip))), oci1, if t.bind != SUCCESS then t.bind else skip)
  }

  /** What the bind arrays have to take in. */
  function NameReply(t: Turn, skip: int): BindReply {
    if t.bind != SUCCESS then Refused else if skip != SUCCESS then Half(t.value + 1) else Bound(t.value + 1)
  }

  function BindFrom(k: Cursor, args: seq<string>, p: nat): (r: Cursor)
    requires k.Ok() && p <= |args| <= k.s.binds.size
    ensures Progress(k, r) || (p == |args| && r == k)
    ensures OnlyBinds(k, r)
    decreases |args| - p
  {
    if p == |args| then k
    else
      var k1 := BindOne(k, p, args[p]);
      if k1.status != SUCCESS then k1 else BindFrom(k1, args, p + 1)
  }

  /** `_bind_argv`. */
  function BindArgv(k: Cursor, args: seq<string>): (r: Cursor)
    requires k.Ok()
    ensures Progress(k, r) && OnlyBinds(k, r)
  {
    BindFrom(k.(s := k.s.(binds := GrowBinds(k.s.binds, |args|)), status := SUCCESS), args, 0)
  }

  // -------------------------------------------------------------------- define

  /** OCIStmtExecute on the slot's handle. */
  function Execute(k: Cursor): (r: Cursor)
    requires k.Ok()
    ensures Progress(k, r)
  {
    Cursor(k.s, k.oci.Rest().(executed := k.oci.executed + multiset{k.s.handle}), k.oci.Now().execute)
  }

  /** Defining touches the define arrays and the addresses OCI holds, nothing else. */
  ghost predicate OnlyDefines(k: Cursor, r: Cursor) {
    && r.s == k.s.(defs := r.s.defs)
    && r.oci == k.oci.(script := r.oci.script, defined := r.oci.defined)
  }

  /** `_define_ocol_by_pos` for column index `p`: describe the column, make room for its
      value, define it. */
  function DefineColumn(k: Cursor, p: nat, maxLong: nat): (r: Cursor)
    requires k.Ok() && p < k.s.defs.size
    ensures Progress(k, r) && r.s.defs.size >= k.s.defs.size && OnlyDefines(k, r)
  {
    var k1 := Describe(k, p, maxLong);
    if k1.status != SUCCESS then k1 else DefineByPos(k1, p, SQLT_STR, false)
  }

  /** The first half of it: what the server says of the column, and a buffer for its values. The name is
      stored as soon as it is known. */
  function Describe(k: Cursor, p: nat, maxLong: nat): (r: Cursor)
    requires k.Ok() && p < k.s.defs.size
    ensures Progress(k, r) && OnlyDefines(k, r) && SameElsewhere(k.s.defs, r.s.defs, p)
  {
    var d := k.s.defs.(cols := k.s.defs.cols[p := k.s.defs.cols[p].(pos := p)]);
    var a := Asks(k.oci.script, CALLS_TO_NAME);
    var oci := k.oci.(script := a.rest);
    if a.status != SUCCESS then Cursor(k.s.(defs := d), oci, a.status)
    else
      var name := a.last.col.name;
      var named := d.(names := d.names[p := name], nameSize := d.nameSize[p := |name|]);
      DescribeRest(Cursor(k.s.(defs := named), oci, SUCCESS), p, name, maxLong)
  }

  /** ... from the size of the column on. */
  function DescribeRest(k: Cursor, p: nat, name: string, maxLong: nat): (r: Cursor)
    requires k.Ok() && p < k.s.defs.size
    ensures Progress(k, r) && OnlyDefines(k, r) && SameElsewhere(k.s.defs, r.s.defs, p)
  {
    var b := Asks(k.oci.script, CALLS_AFTER_NAME);
    var oci := k.oci.(script := b.rest);
    if b.status != SUCCESS then Cursor(k.s, oci, b.status)
    else
      var col := b.last.col.(name := name);
      var d := k.s.defs.(cols := k.s.defs.cols[p := k.s.defs.cols[p].(desc := col)]);
      var need := BufferNeed(col, maxLong);
      if !need.0 then Cursor(k.s.(defs := d), oci, UNSUPPORTED_DATA_TYPE)
      else Cursor(k.s.(defs := Buffered(d, p, need.1, maxLong)), oci, SUCCESS)
  }

  /** The same arrays, with the same entries for every column but `p`. */
  ghost predicate SameElsewhere(d: Defines, d': Defines, p: nat) {
    && d.Ok() && d'.Ok() && d'.size == d.size && d'.generation == d.generation
    && forall q :: 0 <= q < d.size && q != p ==>
         d'.cols[q] == d.cols[q] && d'.names[q] == d.names[q] && d'.memory[q] == d.memory[q]
           && d'.outvSize[q] == d.outvSize[q] && d'.nameSize[q] == d.nameSize[q]
  }

  /** `_define_by_pos`, telling OCI where column index `p` is to be stored; an array takes a second call. */
  function DefineByPos(k: Cursor, p: nat, dtype: int, isArray: bool): (r: Cursor)
    requires k.Ok()
    ensures Progress(k, r) && r.s.defs.size >= k.s.defs.size && OnlyDefines(k, r)
  {
    if !k.s.prepared then k.(status := STMT_NOT_PARSED)
    else
      var d0 := GrowDefines(k.s.defs, p + 1);
      var d := d0.(cols := d0.cols[p := d0.cols[p].(dtype := dtype)]);
      var t := k.oci.Now();
      if t.local != SUCCESS then Cursor(k.s.(defs := d), k.oci.Rest(), t.local)
      else
        var oci := k.oci.Rest();
        var address := Address(d.generation, p, d.outvSize[p]);
        Defined(Cursor(k.s.(defs := d.(ptrs := d.ptrs[p := t.value + 1])),
                       oci.(defined := oci.defined[(k.s.handle, p + 1) := address]), SUCCESS), p, isArray)
  }

  /** The second call for an array, and the counter. */
  function Defined(k: Cursor, p: nat, isArray: bool): (r: Cursor)
    requires k.Ok() && p < k.s.defs.size && k.status == SUCCESS
    ensures r.Ok() && r.s.defs.size == k.s.defs.size && OnlyDefines(k, r)
    ensures Within(r.oci.script, k.oci.script) && (r.status == STILL_EXECUTING ==> |r.oci.script| < |k.oci.script|)
  {
    var status := if isArray then k.oci.Now().local else SUCCESS;
    var oci := if isArray then k.oci.Rest() else k.oci;
    if status != SUCCESS then Cursor(k.s, oci, status)
    else Cursor(k.s.(defs := k.s.defs.(num := if k.s.defs.num < p + 1 then p + 1 else k.s.defs.num)), oci, SUCCESS)
  }

  function DefineFrom(k: Cursor, p: nat, n: nat, maxLong: nat): (r: Cursor)
    requires k.Ok() && p <= n <= k.s.defs.size
    ensures Progress(k, r) || (p == n && r == k)
    ensures OnlyDefines(k, r)
    decreases n - p
  {
    if p == n then k
    else
      var k1 := DefineColumn(k, p, maxLong);
      if k1.status != SUCCESS then k1 else DefineFrom(k1, p + 1, n, maxLong)
  }

  /** `_define_output`: execute to describe (unless the parent statement already did), then
      define every column. Nothing at all happens when the slot has defines already. */
  function DefineOutput(k: Cursor, maxLong: nat): (r: Cursor)
    requires k.Ok()
    ensures Progress(k, r)
  {
    if k.s.defs.num != 0 then k.(status := SUCCESS)
    else if k.s.cursor.RefCursor? then DefineAll(k.(s := k.s.(isOpen := true)), maxLong)
    else if k.s.numExecutions != 0 then DefineAll(k, maxLong)
    else
      var k1 := Execute(k);
      if k1.status != SUCCESS then k1 else DefineAll(k1.(s := k1.s.(numExecutions := 1)), maxLong)
  }

  /** Ask for the number of columns, make room for all of them, define each. */
  function DefineAll(k: Cursor, maxLong: nat): (r: Cursor)
    requires k.Ok()
    ensures Progress(k, r)
  {
    var t := k.oci.Now();
    var oci := k.oci.Rest();
    if t.local != SUCCESS then Cursor(k.s, oci, t.local)
    else DefineFrom(Reserved(Cursor(k.s, oci, SUCCESS), t.value), 0, t.value, maxLong)
  }

  /** Room reserved for `n` reported columns. */
  function Reserved(k: Cursor, n: nat): (r: Cursor)
    requires k.Ok()
    ensures r.Ok() && n <= r.s.defs.size && r.oci.script == k.oci.script && r.status == k.status
  {
    k.(s := k.s.(defs := GrowDefines(k.s.defs, n)), oci := k.oci.(columns := k.oci.columns[k.s.handle := n]))
  }

  // -------------------------------------------------------------------- reopen

  /** `_sqlo_reopen`: bind, then for a query execute and define, resuming where an earlier call
      with the same slot was told STILL_EXECUTING. */
  function Reopen(k: Cursor, args: seq<string>, maxLong: nat): (r: Cursor)
    requires k.Ok()
    ensures r.Ok() && Within(r.oci.script, k.oci.script)
    ensures k.s.IsQuery() || (args != [] && !k.s.stillExecuting) || k.status != STILL_EXECUTING ==> Progress(k, r)
  {
    if args != [] && !k.s.stillExecuting then
      var k1 := BindArgv(k.(s := k.s.(binds := ResetBinds(k.s.binds))), args);
      if k1.status != SUCCESS then Close(k1, maxLong) else Launch(k1, maxLong)
    else Launch(k, maxLong)
  }

  /** `_sqlo_reopen` after binding. */
  function Launch(k: Cursor, maxLong: nat): (r: Cursor)
    requires k.Ok()
    ensures r.Ok() && Within(r.oci.script, k.oci.script)
    ensures k.s.IsQuery() || k.status != STILL_EXECUTING ==> Progress(k, r)
  {
    if !k.s.IsQuery() then k.(s := k.s.(isOpen := k.status == SUCCESS))
    else if k.s.numExecutions == 0 then
      var k1 := DefineOutput(k, maxLong);
      if k1.status == STILL_EXECUTING then LeftPending(k1)
      else if k1.status != SUCCESS then Close(k1, maxLong).(status := k1.status)
      else
        var s := k1.s.(stillExecuting := false);
        if s.numExecutions == 0 then
          var k2 := DefineOutput(k1.(s := s.(numExecutions := 1)), maxLong);
          k2.(s := k2.s.(isOpen := k2.status == SUCCESS))
        else k1.(s := s.(isOpen := true))
    else
      var k1 := Execute(k);
      if k1.status == STILL_EXECUTING then LeftPending(k1)
      else if k1.status != SUCCESS then
        // closed once for the failed execution and once more at the common error exit
        var k2 := CloseIfUsed(Close(k1, maxLong), maxLong);
        Cursor(k2.s.(isOpen := false), k2.oci, k1.status)
      else k1.(s := k1.s.(stillExecuting := false, isOpen := true))
  }

  function LeftPending(k: Cursor): Cursor {
    k.(s := k.s.(stillExecuting := true, isOpen := false))
  }

  /** `sqlo_close` through a handle that may already have been released. */
  function CloseIfUsed(k: Cursor, maxLong: nat): (r: Cursor)
    requires k.Ok()
    ensures Progress(k, r)
  {
    if k.s.used then Close(k, maxLong) else k.(status := INVALID_STMT_HANDLE)
  }

  // --------------------------------------------------------------------- fetch

  /** `sqlo_fetch`: a query fetches, anything else executes. */
  function Fetch(k: Cursor): (r: Cursor)
    requires k.Ok()
    ensures Progress(k, r)
  {
    if !k.s.IsQuery() then
      var k1 := Execute(k);
      k1.(s := k1.s.(stillExecuting := if k1.status == STILL_EXECUTING then true
                                       else if k1.status == SUCCESS then false else k1.s.stillExecuting))
    else
      var fetch := k.oci.Now().fetch;
      Cursor(k.s.(stillExecuting := if fetch == STILL_EXECUTING then true
                                    else if fetch == SUCCESS || fetch == NO_DATA then false else k.s.stillExecuting),
             k.oci.Rest(), fetch)
  }

  // ----------------------------------------------------- what binding achieves

  /** Positions first..last of a statement, each once. */
  function Positions(h: Handle, first: nat, last: nat): multiset<(Handle, nat)>
    decreases last - first
  {
    if last < first then multiset{} else multiset{(h, first)} + Positions(h, first + 1, last)
  }

  /** Binding argument by argument goes by the answers to binding, one for each argument up to the first refusal. */
  lemma {:induction false} BindFromReplies(k: Cursor, args: seq<string>, p: nat)
    requires k.Ok() && p <= |args| <= k.s.binds.size && k.status == SUCCESS && k.s.binds.num == p && k.s.prepared
    ensures var r := BindFrom(k, args, p);
      && Reply(r.status, r.oci.script) == BindReplies(k.oci.script, |args| - p)
      && (r.status == SUCCESS ==> r.s.binds.num == |args|)
    decreases |args| - p
  {
    hide BindOne, Positions;
    if p < |args| {
      BindOneOutcome(k, p, args[p]);
      var k1 := BindOne(k, p, args[p]);
      if k1.status == SUCCESS {
        BindFromReplies(k1, args, p + 1);
      }
    }
  }

  /** Each argument is bound at most once and in its place, and all of them are exactly when the status is
      SUCCESS. */
  lemma {:induction false} BindFromOutcome(k: Cursor, args: seq<string>, p: nat)
    requires k.Ok() && p <= |args| <= k.s.binds.size && k.status == SUCCESS && k.s.binds.num == p && k.s.prepared
    ensures var r := BindFrom(k, args, p);
      var all := k.oci.bound + Positions(k.s.handle, p + 1, |args|);
      k.oci.bound <= r.oci.bound <= all && (r.status == SUCCESS <==> r.oci.bound == all)
    decreases |args| - p
  {
    hide BindOne, Within, Positions;
    var h := k.s.handle;
    if p < |args| {
      BindOneOutcome(k, p, args[p]);
      PositionsFirst(h, p + 1, |args|);
      var k1 := BindOne(k, p, args[p]);
      if k1.status == SUCCESS {
        BindFromOutcome(k1, args, p + 1);
        SumsAgree(k.oci.bound, k1.oci.bound, BindFrom(k, args, p).oci.bound, (h, p + 1), Positions(h, p + 2, |args|));
      } else {
        assert (h, p + 1) in Positions(h, p + 1, |args|);
      }
    } else {
      NoPositions(h, p + 1, |args|);
    }
  }

  lemma PositionsFirst(h: Handle, first: nat, last: nat)
    requires first <= last
    ensures Positions(h, first, last) == multiset{(h, first)} + Positions(h, first + 1, last)
  {
  }

  lemma NoPositions(h: Handle, first: nat, last: nat)
    requires last < first
    ensures Positions(h, first, last) == multiset{}
  {
  }

  lemma SumsAgree<T>(b: multiset<T>, b1: multiset<T>, r: multiset<T>, x: T, rest: multiset<T>)
    requires b1 == b + multiset{x} && b1 <= r <= b1 + rest
    ensures b <= r <= b + (multiset{x} + rest)
    ensures r == b1 + rest <==> r == b + (multiset{x} + rest)
  {
    assert b1 + rest == b + (multiset{x} + rest);
  }

  lemma BindOneOutcome(k: Cursor, p: nat, arg: string)
    requires k.Ok() && p < k.s.binds.size && k.s.binds.num == p && k.s.prepared
    ensures var r := BindOne(k, p, arg);
      && r.status == k.oci.Now().bind && r.oci.script == Tail(k.oci.script)
      && (r.status == SUCCESS ==> r.s.binds.num == p + 1)
      && r.oci.bound == k.oci.bound + (if r.status == SUCCESS then multiset{(k.s.handle, p + 1)} else multiset{})
  {
  }

  lemma BindOneWrites(k: Cursor, p: nat, arg: string)
    requires k.Ok() && p < k.s.binds.size && k.s.prepared
    ensures var r := BindOne(k, p, arg);
      && r.s.binds.inds == k.s.binds.inds[p := if arg == "" then -1 else 0]
      && r.s.binds.ptrs == (if r.status == SUCCESS then k.s.binds.ptrs[p := k.oci.Now().value + 1] else k.s.binds.ptrs)
  {
  }

  /** The bind arrays hold the arguments from index `p` on, as far as they were reached: the indicator is
      -1, for NULL, exactly where the text is empty, and 0 elsewhere; the handle is OCI's, where it
      accepted. */
  ghost predicate Filled(b: Binds, script: seq<Turn>, args: seq<string>, p: nat) {
    b.Ok() && forall j: nat :: p <= j < |args| ==> FilledAt(b, At(script, j - p), Reached(script, j - p), args[j], j)
  }

  /** One argument, for which OCI has the answer `t` if it is reached. */
  predicate FilledAt(b: Binds, t: Turn, reached: bool, arg: string, j: nat)
    requires b.Ok()
  {
    reached ==>
      && j < b.size && b.inds[j] == (if arg == "" then -1 else 0)
      && (t.bind == SUCCESS ==> b.ptrs[j] == t.value + 1)
  }

  lemma {:induction false} BindFromFills(k: Cursor, args: seq<string>, p: nat)
    requires k.Ok() && p <= |args| <= k.s.binds.size && k.status == SUCCESS && k.s.binds.num == p && k.s.prepared
    ensures var b := BindFrom(k, args, p).s.binds;
      && Filled(b, k.oci.script, args, p) && b.size == k.s.binds.size
      && forall j :: 0 <= j < p ==> b.inds[j] == k.s.binds.inds[j] && b.ptrs[j] == k.s.binds.ptrs[j]
    decreases |args| - p
  {
    hide BindOne;
    if p < |args| {
      BindOneOutcome(k, p, args[p]);
      BindOneWrites(k, p, args[p]);
      var k1 := BindOne(k, p, args[p]);
      var script := k.oci.script;
      assert At(script, 0) == k.oci.Now();
      if k1.status == SUCCESS {
        BindFromFills(k1, args, p + 1);
        OneFilled(BindFrom(k1, args, p + 1).s.binds, script, args, p);
      }
    }
  }

  lemma OneFilled(b: Binds, script: seq<Turn>, args: seq<string>, p: nat)
    requires p < |args| && Filled(b, Tail(script), args, p + 1) && p < b.size
    requires b.inds[p] == (if args[p] == "" then -1 else 0) && b.ptrs[p] == At(script, 0).value + 1
    ensures Filled(b, script, args, p)
  {
    forall j: nat | p <= j < |args|
      ensures FilledAt(b, At(script, j - p), Reached(script, j - p), args[j], j)
    {
      if j > p && Reached(script, j - p) {
        ReachedLater(script, j - p);
        assert FilledAt(b, At(Tail(script), j - (p + 1)), Reached(Tail(script), j - (p + 1)), args[j], j);
      }
    }
  }

  lemma ReachedLater(script: seq<Turn>, j: nat)
    requires j > 0 && Reached(script, j)
    ensures Reached(Tail(script), j - 1) && At(Tail(script), j - 1) == At(script, j)
  {
    forall i | 0 <= i < j - 1
      ensures At(Tail(script), i).bind == SUCCESS
    {
      assert At(script, i + 1).bind == SUCCESS;
    }
  }

  lemma BindArgvOutcome(k: Cursor, args: seq<string>)
    requires k.Ok() && k.s.binds.num == 0 && k.s.prepared
    ensures var r := BindArgv(k, args);
      var all := k.oci.bound + Positions(k.s.handle, 1, |args|);
      && Reply(r.status, r.oci.script) == BindReplies(k.oci.script, |args|)
      && (r.status == SUCCESS <==> forall j :: 0 <= j < |args| ==> At(k.oci.script, j).bind == SUCCESS)
      && k.oci.bound <= r.oci.bound <= all && (r.status == SUCCESS <==> r.oci.bound == all)
      && Filled(r.s.binds, k.oci.script, args, 0)
  {
    hide BindFrom, Positions, BindReplies, Filled;
    var k0 := k.(s := k.s.(binds := GrowBinds(k.s.binds, |args|)), status := SUCCESS);
    BindFromReplies(k0, args, 0);
    BindFromOutcome(k0, args, 0);
    BindFromFills(k0, args, 0);
    BindsAccepted(k.oci.script, |args|);
  }

  /** Binding one position, anywhere: only on a parsed statement; then it is bound exactly when OCI accepts,
      for an array twice, and no other entry of the arrays changes. */
  lemma BindByPosOutcome(k: Cursor, p: nat, isArray: bool)
    requires k.Ok()
    ensures var r := BindByPos(k, p, isArray);
      var b := GrowBinds(k.s.binds, p + 1);
      var first := At(k.oci.script, 0);
      if !k.s.prepared then r == k.(status := STMT_NOT_PARSED)
      else
        && r.status == (if first.bind == SUCCESS && isArray then At(k.oci.script, 1).bind else first.bind)
        && r.oci.bound == k.oci.bound + (if r.status == SUCCESS then multiset{(k.s.handle, p + 1)} else multiset{})
        && r.s.binds == b.(num := r.s.binds.num, ptrs := r.s.binds.ptrs)
        && r.s.binds.ptrs == (if first.bind == SUCCESS then b.ptrs[p := first.value + 1] else b.ptrs)
        && r.s.binds.num == (if r.status == SUCCESS && k.s.binds.num <= p then p + 1 else k.s.binds.num)
  {
    AfterThen(k.oci.script, 1, 0);
  }

  /** Binding by name: only on a parsed statement; then the next entry is taken exactly when OCI accepts,
      for an array twice, and the entries before it are as they were. */
  lemma BindByNameOutcome(k: Cursor, isArray: bool)
    requires k.Ok()
    ensures var r := BindByName(k, isArray);
      var n := k.s.binds.num;
      var first := At(k.oci.script, 0);
      if !k.s.prepared then r == k.(status := STMT_NOT_PARSED)
      else
        && r.status == (if first.bind == SUCCESS && isArray then At(k.oci.script, 1).bind else first.bind)
        && r.s.binds.num == (if r.status == SUCCESS then n + 1 else n) && n < r.s.binds.size
        && r.s.binds.ptrs[..n] == k.s.binds.ptrs[..n]
        && (r.status == SUCCESS ==> r.s.binds.ptrs[n] == first.value + 1)
        && r.s == k.s.(binds := r.s.binds)
  {
    AfterThen(k.oci.script, 1, 0);
  }

  // --------------------------------------------------- what defining achieves

  /** Column `p` is ready to receive rows: OCI holds its address in the arrays as they are now,
      with a size that the memory behind it really has and that a value of the described
      type needs. */
  ghost predicate Receives(d: Defines, h: Handle, defined: map<(Handle, nat), Address>, p: nat, maxLong: nat)
    requires d.Ok()
  {
    && p < d.size
    && (h, p + 1) in defined && defined[(h, p + 1)] == Address(d.generation, p, d.outvSize[p])
    && d.outvSize[p] <= d.memory[p]
    && var need := BufferNeed(d.cols[p].desc, maxLong);
    && need.0 && need.1 <= d.outvSize[p]
    && d.cols[p].pos == p && d.cols[p].dtype == 5 && d.names[p] == d.cols[p].desc.name && d.nameSize[p] == |d.names[p]|
  }

  /** The number of columns reported is not the number defined, or was never reported. */
  predicate Lacks(k: Cursor) {
    !(k.s.handle in k.oci.columns && k.s.defs.num == k.oci.columns[k.s.handle])
  }

  /** Every reported column is defined, and nothing else. */
  ghost predicate AllDefined(k: Cursor, maxLong: nat)
    requires k.Ok()
  {
    && !Lacks(k)
    && forall p :: 0 <= p < k.s.defs.num ==> Receives(k.s.defs, k.s.handle, k.oci.defined, p, maxLong)
  }

  lemma DefineUnparsed(k: Cursor, p: nat, dtype: int, isArray: bool)
    requires k.Ok() && !k.s.prepared
    ensures DefineByPos(k, p, dtype, isArray) == k.(status := STMT_NOT_PARSED)
  {
  }

  /** Defining one position, anywhere: on success OCI holds the address of that element of the arrays as they
      are now, and no column but that one changes. */
  lemma DefineByPosOutcome(k: Cursor, p: nat, dtype: int, isArray: bool)
    requires k.Ok() && k.s.prepared
    ensures var r := DefineByPos(k, p, dtype, isArray);
      var d := GrowDefines(k.s.defs, p + 1);
      && p < r.s.defs.size && SameElsewhere(d, r.s.defs, p)
      && r.s.defs.memory == d.memory && r.s.defs.outvSize == d.outvSize
      && r.s.defs.names == d.names && r.s.defs.nameSize == d.nameSize
      && r.s.defs.ptrs ==
         (if At(k.oci.script, 0).local == SUCCESS then d.ptrs[p := At(k.oci.script, 0).value + 1] else d.ptrs)
      && r.s.defs.cols[p] == d.cols[p].(dtype := dtype)
      && (r.status == SUCCESS <==>
            At(k.oci.script, 0).local == SUCCESS && (isArray ==> At(k.oci.script, 1).local == SUCCESS))
      && (r.status == SUCCESS ==>
            && r.s.defs.num == (if k.s.defs.num < p + 1 then p + 1 else k.s.defs.num)
            && r.oci.defined
               == k.oci.defined[(k.s.handle, p + 1) := Address(r.s.defs.generation, p, r.s.defs.outvSize[p])])
      && (r.status != SUCCESS ==> r.s.defs.num == k.s.defs.num)
      && (At(k.oci.script, 0).local != SUCCESS ==> r.oci.defined == k.oci.defined)
  {
  }

  /** One column: no reallocation, earlier columns stay as they were. */
  lemma DefineColumnOutcome(k: Cursor, p: nat, maxLong: nat)
    requires k.Ok() && p < k.s.defs.size && k.s.defs.num == p && k.s.prepared
    ensures var r := DefineColumn(k, p, maxLong);
      && SameElsewhere(k.s.defs, r.s.defs, p)
      && Reply(r.status, r.oci.script) == ColumnReplies(k.oci.script)
      && (r.status == SUCCESS ==> r.s.defs.num == p + 1 && Receives(r.s.defs, r.s.handle, r.oci.defined, p, maxLong))
      && (r.status != SUCCESS ==> r.s.defs.num == p)
      && forall key :: key in k.oci.defined && key != (k.s.handle, p + 1) ==>
           key in r.oci.defined && r.oci.defined[key] == k.oci.defined[key]
  {
    DescribeOutcome(k, p, maxLong);
    var k1 := Describe(k, p, maxLong);
    if k1.status == SUCCESS {
      DefineByPosOutcome(k1, p, SQLT_STR, false);
    }
  }

  lemma DescribeOutcome(k: Cursor, p: nat, maxLong: nat)
    requires k.Ok() && p < k.s.defs.size
    ensures var r := Describe(k, p, maxLong);
      var a := Asks(k.oci.script, CALLS_TO_NAME);
      var b := Asks(a.rest, CALLS_AFTER_NAME);
      && r.oci == k.oci.(script := r.oci.script) && r.s.defs.num == k.s.defs.num
      && Reply(r.status, r.oci.script) ==
         (if a.status != SUCCESS then Reply(a.status, a.rest)
          else if b.status != SUCCESS then Reply(b.status, b.rest)
          else if b.last.col.dbType.LobType? then Reply(UNSUPPORTED_DATA_TYPE, b.rest)
          else Reply(SUCCESS, b.rest))
      && (r.status == SUCCESS ==>
            var need := BufferNeed(r.s.defs.cols[p].desc, maxLong);
            && need.0 && need.1 <= r.s.defs.outvSize[p] && r.s.defs.cols[p].pos == p
            && r.s.defs.names[p] == r.s.defs.cols[p].desc.name && r.s.defs.nameSize[p] == |r.s.defs.names[p]|)
  {
    hide Asks, Buffered;
  }

  lemma StillReceives(k: Cursor, r: Cursor, q: nat, p: nat, maxLong: nat)
    requires k.Ok() && r.Ok() && q != p && Receives(k.s.defs, k.s.handle, k.oci.defined, q, maxLong)
      && SameElsewhere(k.s.defs, r.s.defs, p)
    requires r.s.handle == k.s.handle
    requires (k.s.handle, q + 1) in r.oci.defined
      && r.oci.defined[(k.s.handle, q + 1)] == k.oci.defined[(k.s.handle, q + 1)]
    ensures Receives(r.s.defs, r.s.handle, r.oci.defined, q, maxLong)
  {
  }

  /** Once room is reserved, no iteration of the column loop reallocates: the arrays the loop
      cursor and all the addresses given to OCI point into are the ones at its exit. */
  lemma {:induction false} DefineFromOutcome(k: Cursor, p: nat, n: nat, maxLong: nat)
    requires k.Ok() && p <= n <= k.s.defs.size && k.status == SUCCESS && k.s.defs.num == p && k.s.prepared
    requires forall q :: 0 <= q < p ==> Receives(k.s.defs, k.s.handle, k.oci.defined, q, maxLong)
    ensures var r := DefineFrom(k, p, n, maxLong);
      && r.s.defs.size == k.s.defs.size && r.s.defs.generation == k.s.defs.generation
      && Reply(r.status, r.oci.script) == ColumnsReplies(k.oci.script, n - p)
      && (if r.status == SUCCESS then r.s.defs.num == n else r.s.defs.num < n)
      && (r.status == SUCCESS ==> forall q :: 0 <= q < n ==>
            Receives(r.s.defs, r.s.handle, r.oci.defined, q, maxLong))
    decreases n - p
  {
    hide DefineColumn, ColumnReplies, Receives, SameElsewhere;
    if p < n {
      DefineColumnOutcome(k, p, maxLong);
      SameSize(k.s.defs, DefineColumn(k, p, maxLong).s.defs, p);
      var k1 := DefineColumn(k, p, maxLong);
      if k1.status == SUCCESS {
        forall q | 0 <= q < p
          ensures Receives(k1.s.defs, k1.s.handle, k1.oci.defined, q, maxLong)
        {
          DefinedBefore(k.s.defs, k.s.handle, k.oci.defined, q, maxLong);
          StillReceives(k, k1, q, p, maxLong);
        }
        DefineFromOutcome(k1, p + 1, n, maxLong);
      }
    }
  }

  lemma SameSize(d: Defines, d': Defines, p: nat)
    requires SameElsewhere(d, d', p)
    ensures d'.size == d.size && d'.generation == d.generation
  {
  }

  lemma DefinedBefore(d: Defines, h: Handle, defined: map<(Handle, nat), Address>, p: nat, maxLong: nat)
    requires d.Ok() && Receives(d, h, defined, p, maxLong)
    ensures (h, p + 1) in defined
  {
  }

  /** The second half of `_define_output`, on a statement of which nothing was reported yet: all columns are
      defined exactly when the describing and defining calls all succeed. */
  lemma DefineAllOutcome(k: Cursor, maxLong: nat)
    requires k.Ok() && k.s.defs.num == 0 && k.s.prepared && k.s.handle !in k.oci.columns
    ensures var r := DefineAll(k, maxLong);
      && Reply(r.status, r.oci.script) == DescribeReplies(k.oci.script)
      && (r.status == SUCCESS <==> AllDefined(r, maxLong)) && (r.status == SUCCESS <==> !Lacks(r))
      && r.s == k.s.(defs := r.s.defs)
      && r.oci == k.oci.(script := r.oci.script, defined := r.oci.defined, columns := r.oci.columns)
      && r.oci.columns - {k.s.handle} == k.oci.columns - {k.s.handle}
  {
    hide DefineFrom, ColumnsReplies, Receives;
    var t := k.oci.Now();
    if t.local == SUCCESS {
      DefineFromOutcome(Reserved(Cursor(k.s, k.oci.Rest(), SUCCESS), t.value), 0, t.value, maxLong);
    }
  }

  /** A cursor by reference is open already, through the statement that returned it: it is marked so and
      defined, and not executed. */
  lemma RefCursorDefines(k: Cursor, maxLong: nat)
    requires k.Ok() && k.s.cursor.RefCursor? && k.s.defs.num == 0
    ensures var r := DefineOutput(k, maxLong);
      && r.s == k.s.(isOpen := true, defs := r.s.defs) && r.oci.executed == k.oci.executed
      && (k.s.prepared && k.s.handle !in k.oci.columns ==>
            && Reply(r.status, r.oci.script) == DescribeReplies(k.oci.script)
            && (r.status == SUCCESS <==> AllDefined(r, maxLong)))
  {
    hide DefineAll, AllDefined, DescribeReplies;
    var k1 := k.(s := k.s.(isOpen := true));
    DefineAllFrame(k1, maxLong);
    if k.s.prepared && k.s.handle !in k.oci.columns {
      DefineAllOutcome(k1, maxLong);
    }
  }

  lemma DefineAllFrame(k: Cursor, maxLong: nat)
    requires k.Ok()
    ensures var r := DefineAll(k, maxLong);
      && r.s == k.s.(defs := r.s.defs)
      && r.oci == k.oci.(script := r.oci.script, defined := r.oci.defined, columns := r.oci.columns)
  {
  }

  /** A slot left with defines by an earlier session fools `_define_output`: it answers SUCCESS
      without a single call, so a query is marked open that no server ever executed.
      It makes the describing call exactly when the slot had no defines. */
  lemma StaleDefinesSkipExecution(k: Cursor, maxLong: nat)
    requires k.Ok() && k.s.used && k.s.IsQuery() && k.s.numExecutions == 0 && k.s.cursor.Default? && !k.s.isOpen
    requires k.oci.script != []
    ensures var r := Reopen(k, [], maxLong);
      && (k.s.defs.num != 0 ==> r.status == SUCCESS && r.s.isOpen && r.oci == k.oci)
      && (k.s.defs.num == 0 ==> k.s.handle in r.oci.executed - k.oci.executed && |r.oci.script| < |k.oci.script|)
  {
    hide DefineAll, Progress, DropDefines, ResetBinds;
    if k.s.defs.num == 0 {
      ExecutesOnce(k, maxLong);
    }
  }

  lemma ExecutesOnce(k: Cursor, maxLong: nat)
    requires k.Ok() && k.s.defs.num == 0 && k.s.numExecutions == 0 && !k.s.cursor.RefCursor?
    ensures DefineOutput(k, maxLong).oci.executed == k.oci.executed + multiset{k.s.handle}
    ensures k.oci.script != [] ==> |DefineOutput(k, maxLong).oci.script| < |k.oci.script|
    ensures DefineOutput(k, maxLong).status == SUCCESS ==> DefineOutput(k, maxLong).s.numExecutions > 0
  {
    var k1 := Execute(k);
    DefineAllFrame(k1.(s := k1.s.(numExecutions := 1)), maxLong);
  }

  // ---------------------------------------------- where reopening leaves a slot

  /** A slot given back: idle, without a handle, nothing bound or defined. */
  ghost predicate Vacated(s: State) {
    s.Idle() && s.handle == NULL && s.binds.num == 0 && s.defs.num == 0
  }

  /** A slot that is taken although its statement is gone. */
  ghost predicate Lost(s: State) {
    s.used && !s.isOpen && s.handle == NULL && s.binds.num == 0 && s.defs.num == 0
  }

  ghost predicate FreesSucceed(script: seq<Turn>) {
    forall t <- script :: t.free == SUCCESS
  }

  /** A slot whose query is under way on handle `h`. */
  ghost predicate UnderWay(s: State, h: Handle) {
    s.Resumable() && s.prepared && s.cursor.Default? && s.handle == h != NULL
  }

  /** A slot whose statement is open on handle `h`. */
  ghost predicate OpenOn(s: State, h: Handle) {
    s.used && s.isOpen && !s.stillExecuting && s.prepared && s.handle == h != NULL
  }

  /** `sqlo_close` gives the slot back exactly when the handle free is accepted (or there is
      nothing to free); it never touches the rest of the conversation. */
  lemma CloseOutcome(k: Cursor, maxLong: nat)
    requires k.Ok()
    ensures var r := Close(k, maxLong);
      && (r.status == SUCCESS <==> k.s.handle == NULL || k.oci.Now().free == SUCCESS)
      && (r.status == SUCCESS ==> Vacated(r.s))
      && (r.status != SUCCESS ==> r.s.used == k.s.used && r.s.handle == NULL)
      && r.s.sth == k.s.sth && r.s.stype == k.s.stype
      && r.oci == k.oci.(script := r.oci.script, freed := r.oci.freed)
  {
  }

  /** It returns the reply to freeing the handle, which is freed whatever the reply. */
  lemma CloseFrees(k: Cursor, maxLong: nat)
    requires k.Ok()
    ensures var r := Close(k, maxLong);
      && r.status == (if k.s.handle == NULL then SUCCESS else At(k.oci.script, 0).free)
      && r.oci == (if k.s.handle == NULL then k.oci
                   else k.oci.(script := After(k.oci.script, 1), freed := k.oci.freed + multiset{k.s.handle}))
  {
    hide DropDefines, ResetBinds;
  }

  lemma ClosingVacates(k: Cursor, maxLong: nat)
    requires k.Ok() && FreesSucceed(k.oci.script)
    ensures Close(k, maxLong).status == SUCCESS && Vacated(Close(k, maxLong).s)
  {
  }

  /** The slot and the conversation are as the answers make them. */
  ghost predicate Came(h: Handle, a: Attempt, r: Cursor, maxLong: nat)
    requires r.Ok()
  {
    && r.oci.script == a.rest
    && match a
       case Bounces(closed, _) => r.s.Idle() && (closed ==> Vacated(r.s))
       case Refuses(_, _) => r.s.Idle()
       case Returns(_) => Vacated(r.s)
       case LosesBusy(query, _) => Lost(r.s) && !r.s.stillExecuting && r.s.IsQuery() == query
       case Loses(_, _) => Lost(r.s)
       case Pends(executed, _) => UnderWay(r.s, h) && Paused(r, executed)
       case Opens(query, complete, _) =>
         OpenOn(r.s, h) && r.s.IsQuery() == query && (query ==> (complete <==> AllDefined(r, maxLong)))
  }

  /** A query interrupted before its first successful execution, or after it and then not fully defined. */
  ghost predicate Paused(k: Cursor, executed: bool) {
    if executed then k.s.numExecutions > 0 && Lacks(k)
    else k.s.numExecutions == 0 && k.s.defs.num == 0 && k.s.handle !in k.oci.columns
  }

  /** What opening a statement leaves alone: its place in the table, and every record of other handles. */
  ghost predicate OwnOnly(k: Cursor, r: Cursor) {
    && r.s.sth == k.s.sth && r.oci.last == k.oci.last
    && r.oci.columns - {k.s.handle} == k.oci.columns - {k.s.handle}
    && forall h :: h != k.s.handle ==> r.oci.executed[h] == k.oci.executed[h]
  }

  /** Closing after a failure, once. */
  lemma CloseComes(k: Cursor, status: int, maxLong: nat)
    requires k.Ok() && k.s.used && !k.s.isOpen && k.s.handle != NULL
    ensures var r := Close(k, maxLong);
      var a := ClosedOnce(status, k.oci.script);
      && Came(k.s.handle, a, r, maxLong) && OwnOnly(k, r)
      && r.oci.prepared == k.oci.prepared && r.oci.bound == k.oci.bound
  {
  }

  /** Running an unopened query after binding, from where it stopped: for every script of answers, it ends as
      those answers say. */
  lemma LaunchOutcome(k: Cursor, maxLong: nat)
    requires k.Ok() && k.s.used && k.s.IsQuery() && !k.s.isOpen && k.s.prepared && k.s.cursor.Default?
      && k.s.handle != NULL
    requires Paused(k, k.s.numExecutions > 0)
    ensures var r := Launch(k, maxLong);
      var a := Launches(k.oci.script, k.s.numExecutions > 0);
      && Came(k.s.handle, a, r, maxLong) && r.status == a.Ret() && OwnOnly(k, r)
      && r.oci.prepared == k.oci.prepared && r.oci.bound == k.oci.bound
  {
    if k.s.numExecutions == 0 {
      FirstLaunch(k, maxLong);
    } else {
      LaterLaunch(k, maxLong);
    }
  }

  lemma FirstLaunch(k: Cursor, maxLong: nat)
    requires k.Ok() && k.s.used && k.s.IsQuery() && !k.s.isOpen && k.s.prepared && k.s.cursor.Default?
      && k.s.handle != NULL
    requires Paused(k, false)
    ensures var r := Launch(k, maxLong);
      var a := Launches(k.oci.script, false);
      && Came(k.s.handle, a, r, maxLong) && r.status == a.Ret() && OwnOnly(k, r)
      && r.oci.prepared == k.oci.prepared && r.oci.bound == k.oci.bound
  {
    hide DescribeReplies, DefineAll, Close, AllDefined, Lacks;
    var k1 := Execute(k);
    if k1.status == SUCCESS {
      var k2 := k1.(s := k1.s.(numExecutions := 1));
      DefineAllOutcome(k2, maxLong);
      var r := DefineAll(k2, maxLong);
      if r.status != SUCCESS && r.status != STILL_EXECUTING {
        CloseComes(r, r.status, maxLong);
      } else {
        LacksLater(r, LeftPending(r));
        DefinedLater(r, r.(s := r.s.(stillExecuting := false, isOpen := true)), maxLong);
      }
    } else if k1.status != STILL_EXECUTING {
      CloseComes(k1, k1.status, maxLong);
    }
  }

  /** Running a query neither prepares nor binds. */
  lemma LaunchFrame(k: Cursor, maxLong: nat)
    requires k.Ok() && k.s.IsQuery()
    ensures var r := Launch(k, maxLong);
      r.oci.prepared == k.oci.prepared && r.oci.bound == k.oci.bound && r.oci.last == k.oci.last
  {
    hide Close, DefineOutput;
    DefineOutputFrame(k, maxLong);
    var k1 := DefineOutput(k, maxLong);
    CloseOutcome(k1, maxLong);
    DefineOutputFrame(k1.(s := k1.s.(stillExecuting := false, numExecutions := 1)), maxLong);
    CloseOutcome(Execute(k), maxLong);
    CloseOutcome(Close(Execute(k), maxLong), maxLong);
  }

  /** Running a query without leftover defines executes it once. */
  lemma LaunchExecutes(k: Cursor, maxLong: nat)
    requires k.Ok() && k.s.IsQuery() && !k.s.cursor.RefCursor? && (k.s.numExecutions == 0 ==> k.s.defs.num == 0)
    ensures Launch(k, maxLong).oci.executed == k.oci.executed + multiset{k.s.handle}
  {
    hide Close, DefineOutput, State.Ok;
    if k.s.numExecutions == 0 {
      ExecutesOnce(k, maxLong);
      var k1 := DefineOutput(k, maxLong);
      CloseOutcome(k1, maxLong);
    } else {
      CloseOutcome(Execute(k), maxLong);
      CloseOutcome(Close(Execute(k), maxLong), maxLong);
    }
  }

  lemma DefineOutputFrame(k: Cursor, maxLong: nat)
    requires k.Ok()
    ensures var r := DefineOutput(k, maxLong);
      && r.oci.prepared == k.oci.prepared && r.oci.bound == k.oci.bound && r.oci.last == k.oci.last
      && r.s.sth == k.s.sth && r.s.used == k.s.used && r.s.stype == k.s.stype && r.s.handle == k.s.handle
      && r.s.binds == k.s.binds
  {
    hide DefineAll, Progress;
    DefineAllFrame(k.(s := k.s.(isOpen := true)), maxLong);
    DefineAllFrame(k, maxLong);
    var k1 := Execute(k);
    DefineAllFrame(k1.(s := k1.s.(numExecutions := 1)), maxLong);
  }

  lemma LacksLater(k: Cursor, r: Cursor)
    requires r.s.handle == k.s.handle && r.s.defs == k.s.defs && r.oci.columns == k.oci.columns
    ensures Lacks(r) == Lacks(k)
  {
  }

  lemma DefinedLater(k: Cursor, r: Cursor, maxLong: nat)
    requires k.Ok() && r.Ok() && r.s.handle == k.s.handle && r.s.defs == k.s.defs
    requires r.oci.columns == k.oci.columns && r.oci.defined == k.oci.defined
    ensures AllDefined(r, maxLong) == AllDefined(k, maxLong)
  {
  }

  lemma LaterLaunch(k: Cursor, maxLong: nat)
    requires k.Ok() && k.s.used && k.s.IsQuery() && !k.s.isOpen && k.s.prepared && k.s.cursor.Default?
      && k.s.handle != NULL
    requires k.s.numExecutions > 0 && Lacks(k)
    ensures var r := Launch(k, maxLong);
      var a := Launches(k.oci.script, true);
      && Came(k.s.handle, a, r, maxLong) && r.status == a.Ret() && OwnOnly(k, r)
      && r.oci.prepared == k.oci.prepared && r.oci.bound == k.oci.bound
  {
    var k1 := Execute(k);
    if k1.status != SUCCESS && k1.status != STILL_EXECUTING {
      CloseOutcome(k1, maxLong);
      CloseOutcome(Close(k1, maxLong), maxLong);
    }
  }

  /** A query whose columns could not be counted at once, because that call was busy, is executed a second time by
      the next call and then open with no column defined. */
  lemma BusyCountReexecutes(k: Cursor, maxLong: nat)
    requires k.Ok() && k.s.IsQuery() && k.s.numExecutions == 0 && k.s.defs.num == 0 && !k.s.cursor.RefCursor?
    requires k.oci.Now().execute == SUCCESS && k.oci.Rest().Now().local == STILL_EXECUTING
    ensures var k1 := Launch(k, maxLong);
      var again := k1.(oci := k1.oci.Rest()); // the mode was read in between
      var k2 := Launch(again, maxLong);
      && k1.status == STILL_EXECUTING && k1.s.stillExecuting && !k1.s.isOpen
      && (again.oci.Now().execute == SUCCESS ==>
            && k2.status == SUCCESS && k2.s.isOpen && k2.s.defs.num == 0
            && k2.oci.executed == k.oci.executed + multiset{k.s.handle, k.s.handle})
  {
  }

  /** `_sqlo_reopen` of a statement just prepared: binding, then launching a query. When a bind is refused the
      status is that of the close, so SUCCESS is reported for a slot given back. */
  lemma ReopenOutcome(k: Cursor, args: seq<string>, maxLong: nat)
    requires k.Ok() && k.s.used && !k.s.isOpen && k.s.prepared && k.s.cursor.Default? && k.s.handle != NULL
    requires !k.s.stillExecuting && k.status == SUCCESS && k.s.numExecutions == 0 && k.s.handle !in k.oci.columns
    ensures var r := Reopen(k, args, maxLong);
      var a := Binding(k.oci.script, |args|, k.s.IsQuery(), k.s.defs.num != 0);
      var all := k.oci.bound + Positions(k.s.handle, 1, |args|);
      && Came(k.s.handle, a, r, maxLong) && r.status == a.Ret() && OwnOnly(k, r)
      && r.oci.prepared == k.oci.prepared && k.oci.bound <= r.oci.bound <= all
      && (r.oci.bound == all <==> forall j :: 0 <= j < |args| ==> At(k.oci.script, j).bind == SUCCESS)
  {
    hide Launches, BindReplies, BindArgv, Positions;
    var k1 := k;
    if args != [] {
      var k0 := k.(s := k.s.(binds := ResetBinds(k.s.binds)));
      BindArgvOutcome(k0, args);
      k1 := BindArgv(k0, args);
      if k1.status != SUCCESS {
        BindCloses(k1, maxLong);
        return;
      }
    } else {
      NothingToBind(k.oci.script, k.s.handle);
    }
    BoundLaunch(k1, maxLong);
  }

  /** A statement that runs or is open has all its arguments in its bind arrays. */
  lemma ReopenFills(k: Cursor, args: seq<string>, maxLong: nat)
    requires k.Ok() && k.s.prepared && !k.s.stillExecuting && BindReplies(k.oci.script, |args|).status == SUCCESS
    ensures var r := Reopen(k, args, maxLong);
      r.status == SUCCESS || r.status == STILL_EXECUTING ==> Filled(r.s.binds, k.oci.script, args, 0)
  {
    hide BindArgv, BindReplies, Launch;
    var k0 := k.(s := k.s.(binds := ResetBinds(k.s.binds)));
    BindArgvOutcome(k0, args);
    LaunchKeepsBinds(BindArgv(k0, args), maxLong);
    LaunchKeepsBinds(k, maxLong);
  }

  lemma LaunchKeepsBinds(k: Cursor, maxLong: nat)
    requires k.Ok()
    ensures var r := Launch(k, maxLong);
      r.status == SUCCESS || r.status == STILL_EXECUTING ==> r.s.binds == k.s.binds
  {
    hide Close, DefineOutput;
    DefineOutputFrame(k, maxLong);
    var k1 := DefineOutput(k, maxLong);
    DefineOutputFrame(k1.(s := k1.s.(stillExecuting := false, numExecutions := 1)), maxLong);
  }

  lemma NothingToBind(script: seq<Turn>, h: Handle)
    ensures BindReplies(script, 0) == Reply(SUCCESS, script) && Positions(h, 1, 0) == multiset{}
  {
  }

  lemma BindCloses(k: Cursor, maxLong: nat)
    requires k.Ok() && k.s.used && !k.s.isOpen && k.s.handle != NULL && !k.s.stillExecuting
    ensures var r := Close(k, maxLong);
      var free := Next(k.oci.script).free;
      var a := if free == SUCCESS then Returns(Tail(k.oci.script))
               else if free == STILL_EXECUTING then LosesBusy(k.s.IsQuery(), Tail(k.oci.script))
               else Loses(free, Tail(k.oci.script));
      && Came(k.s.handle, a, r, maxLong) && r.status == a.Ret() && OwnOnly(k, r)
      && r.oci.prepared == k.oci.prepared && r.oci.bound == k.oci.bound
  {
  }

  /** Launching a statement that is bound: a query runs, unless its slot still holds defines; anything else is
      open at once. */
  lemma BoundLaunch(k: Cursor, maxLong: nat)
    requires k.Ok() && k.s.used && !k.s.isOpen && k.s.prepared && k.s.cursor.Default? && k.s.handle != NULL
    requires !k.s.stillExecuting && k.status == SUCCESS && k.s.numExecutions == 0 && k.s.handle !in k.oci.columns
    ensures var r := Launch(k, maxLong);
      var a := if !k.s.IsQuery() then Opens(false, true, k.oci.script)
               else if k.s.defs.num != 0 then Opens(true, false, k.oci.script) else Launches(k.oci.script, false);
      && Came(k.s.handle, a, r, maxLong) && r.status == a.Ret() && OwnOnly(k, r)
      && r.oci.prepared == k.oci.prepared && r.oci.bound == k.oci.bound
  {
    hide Launches, DefineAll;
    if k.s.IsQuery() && k.s.defs.num == 0 {
      LaunchOutcome(k, maxLong);
    }
  }

  // ------------------------------------------- reopening what was open before

  /** The caller's loop around `sqlo_reopen`: call it again while it answers STILL_EXECUTING. */
  function PollReopen(k: Cursor, args: seq<string>, maxLong: nat): (r: Cursor)
    requires k.Ok() && k.s.IsQuery()
    ensures r.Ok() && r.status != STILL_EXECUTING
    decreases |k.oci.script|
  {
    var r := Reopen(k, args, maxLong);
    if r.status == STILL_EXECUTING then SameType(k, args, maxLong); PollReopen(r, args, maxLong) else r
  }

  lemma SameType(k: Cursor, args: seq<string>, maxLong: nat)
    requires k.Ok()
    ensures Reopen(k, args, maxLong).s.stype == k.s.stype
    ensures k.s.handle == NULL ==> Reopen(k, args, maxLong).s.handle == NULL
  {
    hide BindArgv, Launch, Close;
    var k1 := if args != [] && !k.s.stillExecuting
      then BindArgv(k.(s := k.s.(binds := ResetBinds(k.s.binds))), args) else k;
    CloseOutcome(k1, maxLong);
    LaunchSameType(k1, maxLong);
  }

  lemma LaunchSameType(k: Cursor, maxLong: nat)
    requires k.Ok()
    ensures Launch(k, maxLong).s.stype == k.s.stype
    ensures k.s.handle == NULL ==> Launch(k, maxLong).s.handle == NULL
  {
    hide DefineOutput, Close;
    DefineOutputFrame(k, maxLong);
    var k1 := DefineOutput(k, maxLong);
    CloseOutcome(k1, maxLong);
    DefineOutputFrame(k1.(s := k1.s.(stillExecuting := false, numExecutions := 1)), maxLong);
    CloseOutcome(Execute(k), maxLong);
    CloseOutcome(Close(Execute(k), maxLong), maxLong);
  }

  /** A query executed before, with all its columns defined. */
  ghost predicate WasOpen(k: Cursor, maxLong: nat) {
    && k.Ok() && k.s.used && k.s.IsQuery() && k.s.prepared && k.s.handle != NULL && k.s.numExecutions > 0
    && AllDefined(k, maxLong)
  }

  /** Executing it again, once: open with all its columns, under way, or closed for good. */
  lemma Relaunch(k: Cursor, maxLong: nat)
    requires WasOpen(k, maxLong)
    ensures var r := Launch(k, maxLong);
      && r.status == k.oci.Now().execute
      && r.oci.prepared == k.oci.prepared && r.oci.bound == k.oci.bound
      && r.oci.executed == k.oci.executed + multiset{k.s.handle}
      && (r.status == SUCCESS || r.status == STILL_EXECUTING ==>
            && r.oci.script == Tail(k.oci.script) && WasOpen(r, maxLong)
            && r.s.handle == k.s.handle && r.s.binds == k.s.binds)
      && (r.status == SUCCESS ==> OpenOn(r.s, k.s.handle))
      && (r.status == STILL_EXECUTING ==> r.s.stillExecuting && !r.s.isOpen)
      && (r.status != SUCCESS && r.status != STILL_EXECUTING ==> Vacated(r.s))
  {
    hide Lacks, Receives;
    var k1 := Execute(k);
    if k1.status == SUCCESS || k1.status == STILL_EXECUTING {
      DefinedLater(k, Launch(k, maxLong), maxLong);
    } else {
      CloseOutcome(k1, maxLong);
      CloseOutcome(Close(k1, maxLong), maxLong);
    }
  }

  /** Polling on without binding. */
  lemma {:induction false} PollRelaunch(k: Cursor, args: seq<string>, maxLong: nat)
    requires WasOpen(k, maxLong) && (args == [] || k.s.stillExecuting)
    ensures var r := PollReopen(k, args, maxLong);
      var f := Fetching(k.oci.script, false);
      && r.status == f.status && r.oci.prepared == k.oci.prepared && r.oci.bound == k.oci.bound
      && (if f.status == SUCCESS then
            OpenOn(r.s, k.s.handle) && AllDefined(r, maxLong) && r.oci.script == f.rest && r.s.binds == k.s.binds
          else Vacated(r.s))
    decreases |k.oci.script|
  {
    hide Launch, AllDefined;
    Relaunch(k, maxLong);
    var r := Launch(k, maxLong);
    assert Reopen(k, args, maxLong) == r;
    if r.status == STILL_EXECUTING {
      PollRelaunch(r, args, maxLong);
    }
  }

  /** `sqlo_reopen`, polled to the end, of a query that was open before: it binds the arguments once,
      prepares nothing, and ends open on the same handle with all its columns still defined exactly when the
      binds and the first execution that is not busy are accepted. A refused execution gives the slot back;
      a refused bind closes the statement, with the status of the close. */
  lemma ReopenAgainOutcome(k: Cursor, args: seq<string>, maxLong: nat)
    requires WasOpen(k, maxLong) && !k.s.stillExecuting
    ensures var r := PollReopen(k, args, maxLong);
      var b := BindReplies(k.oci.script, |args|);
      var f := Fetching(b.rest, false);
      && (OpenOn(r.s, k.s.handle) && AllDefined(r, maxLong) <==> b.status == SUCCESS && f.status == SUCCESS)
      && (b.status == SUCCESS ==>
            && r.status == f.status && r.oci.prepared == k.oci.prepared
            && r.oci.bound == k.oci.bound + Positions(k.s.handle, 1, |args|)
            && (if f.status == SUCCESS then Filled(r.s.binds, k.oci.script, args, 0) else Vacated(r.s)))
      && (b.status != SUCCESS ==>
            var c := Reopen(k, args, maxLong);
            && c.status == Next(b.rest).free
            && (if c.status == SUCCESS then r == c && Vacated(c.s) else c.s.handle == NULL))
  {
    hide Launch, AllDefined, BindArgv, BindReplies, Positions, Fetching, Reopen;
    var k0 := k.(s := k.s.(binds := ResetBinds(k.s.binds)));
    var c := Reopen(k, args, maxLong);
    if args == [] {
      NothingToBind(k.oci.script, k.s.handle);
      PollRelaunch(k, args, maxLong);
      return;
    }
    BindsFirst(k, args, maxLong);
    if BindReplies(k.oci.script, |args|).status == SUCCESS {
      var k1 := BindArgv(k0, args);
      Relaunch(k1, maxLong);
      OnceMore(k1.oci.script);
      if c.status == STILL_EXECUTING {
        PollRelaunch(c, args, maxLong);
      }
    } else if c.status == STILL_EXECUTING {
      StaysGone(c, args, maxLong);
    }
  }

  lemma OnceMore(script: seq<Turn>)
    ensures Fetching(script, false)
      == if Next(script).execute == STILL_EXECUTING then Fetching(Tail(script), false)
         else Reply(Next(script).execute, Tail(script))
  {
  }

  /** The first call, when there are arguments: bound, and executed if the binds are accepted. */
  lemma BindsFirst(k: Cursor, args: seq<string>, maxLong: nat)
    requires WasOpen(k, maxLong) && !k.s.stillExecuting && args != []
    ensures var b := BindReplies(k.oci.script, |args|);
      var r := Reopen(k, args, maxLong);
      if b.status == SUCCESS then
        var k1 := BindArgv(k.(s := k.s.(binds := ResetBinds(k.s.binds))), args);
        && r == Launch(k1, maxLong) && WasOpen(k1, maxLong) && k1.s.handle == k.s.handle
        && k1.oci.script == b.rest && k1.oci.prepared == k.oci.prepared
        && k1.oci.bound == k.oci.bound + Positions(k.s.handle, 1, |args|)
        && Filled(k1.s.binds, k.oci.script, args, 0)
      else
        && r.status == Next(b.rest).free && r.s.IsQuery()
        && (if r.status == SUCCESS then Vacated(r.s) else r.s.handle == NULL)
  {
    hide Launch, AllDefined, BindArgv, BindReplies, Positions;
    var k0 := k.(s := k.s.(binds := ResetBinds(k.s.binds)));
    BindArgvOutcome(k0, args);
    var k1 := BindArgv(k0, args);
    if k1.status == SUCCESS {
      DefinedLater(k, k1, maxLong);
    } else {
      CloseOutcome(k1, maxLong);
    }
  }

  /** `sqlo_reopen` of what is not a query executes nothing: bound, it is open. Without arguments it goes by
      the status the connection's last call happened to leave. */
  lemma ReopenPlain(k: Cursor, args: seq<string>, maxLong: nat)
    requires k.Ok() && k.s.prepared && !k.s.IsQuery() && !k.s.stillExecuting
    ensures var r := Reopen(k, args, maxLong);
      var b := BindReplies(k.oci.script, |args|);
      && r.oci.executed == k.oci.executed
      && (args == [] ==> r == k.(s := k.s.(isOpen := r.s.isOpen)) && (r.s.isOpen <==> k.status == SUCCESS))
      && (args != [] && b.status == SUCCESS ==>
            r.status == SUCCESS && r.s.isOpen && Filled(r.s.binds, k.oci.script, args, 0))
      && (args != [] && b.status != SUCCESS ==>
            && r.status == (if k.s.handle == NULL then SUCCESS else Next(b.rest).free)
            && (r.status == SUCCESS ==> Vacated(r.s)))
  {
    hide BindArgv, BindReplies, Filled;
    if args != [] {
      var k0 := k.(s := k.s.(binds := ResetBinds(k.s.binds)));
      BindArgvOutcome(k0, args);
      CloseOutcome(BindArgv(k0, args), maxLong);
      CloseFrees(BindArgv(k0, args), maxLong);
    }
  }

  /** A statement that lost its handle does not get another. */
  lemma {:induction false} StaysGone(k: Cursor, args: seq<string>, maxLong: nat)
    requires k.Ok() && k.s.IsQuery() && k.s.handle == NULL
    ensures PollReopen(k, args, maxLong).s.handle == NULL
    decreases |k.oci.script|
  {
    hide Reopen;
    SameType(k, args, maxLong);
    var r := Reopen(k, args, maxLong);
    if r.status == STILL_EXECUTING {
      StaysGone(r, args, maxLong);
    }
  }

  // ------------------------------------------------- keeping a slot's identity

  /** A slot operation keeps a slot's identity, and leaves it in use or given back. */
  ghost predicate Keeps(s: State, s': State) {
    s'.sth == s.sth && (s'.used || Vacated(s'))
  }

  lemma ReopenKeeps(k: Cursor, args: seq<string>, maxLong: nat)
    requires k.Ok() && k.s.used
    ensures Keeps(k.s, Reopen(k, args, maxLong).s)
  {
    hide BindArgv, Launch, Close;
    if args != [] && !k.s.stillExecuting {
      var k1 := BindArgv(k.(s := k.s.(binds := ResetBinds(k.s.binds))), args);
      if k1.status != SUCCESS {
        CloseOutcome(k1, maxLong);
      } else {
        LaunchKeeps(k1, maxLong);
      }
    } else {
      LaunchKeeps(k, maxLong);
    }
  }

  lemma LaunchKeeps(k: Cursor, maxLong: nat)
    requires k.Ok() && k.s.used
    ensures Keeps(k.s, Launch(k, maxLong).s)
  {
    hide DefineOutput, Close;
    DefineOutputFrame(k, maxLong);
    var k1 := DefineOutput(k, maxLong);
    CloseOutcome(k1, maxLong);
    DefineOutputFrame(k1.(s := k1.s.(stillExecuting := false, numExecutions := 1)), maxLong);
    CloseOutcome(Execute(k), maxLong);
    CloseOutcome(Close(Execute(k), maxLong), maxLong);
  }
}
