/** One entry of a connection's statement table: its flags, its bind arrays and its parallel
    define arrays, first as a value with the operations the library performs on it, then as
    the object whose fields those operations update. */
module Statements {
  import opened Oci

  /** Capacity floors of the growable arrays. */
  const MIN_BINDP := 1
  const MIN_DEFNP := 1
  const MIN_OBUF_SIZE := 1

  const NULL_IND := -1
  const NOT_NULL_IND := 0

  /** OCI statement types. */
  const STMT_SELECT := 1
  const STMT_BEGIN := 8
  const STMT_DECLARE := 9

  /** SQLT_STR, the external type every query column is defined with. */
  const SQLT_STR := 5

  datatype CursorType = Default | RefCursor | NestedTable

  // ---------------------------------------------------------------- bind arrays

  /** The input side. `moved` counts the elements of `ptrs` that reallocations have copied. */
  datatype Binds = Binds(size: nat, num: nat, ptrs: seq<Handle>, inds: seq<int>, moved: nat) {
    ghost predicate Ok() {
      |ptrs| == size && |inds| == size && num <= size
    }
  }

  const NO_BINDS := Binds(0, 0, [], [], 0)

  function Zeros(n: nat): (z: seq<nat>)
    ensures |z| == n && forall i :: 0 <= i < n ==> z[i] == 0
  {
    seq(n, _ => 0)
  }

  /** The size allocated when `want` elements do not fit. */
  function Grown(want: nat, floor: nat): (n: nat)
    ensures want <= n
  {
    if want <= floor then floor else 2 * want
  }

  function GrowBinds(b: Binds, want: nat): (r: Binds)
    requires b.Ok()
    ensures r.Ok() && want <= r.size && r.num == b.num
  {
    if want <= b.size then b
    else
      var n := Grown(want, MIN_BINDP);
      Binds(n, b.num, b.ptrs + Zeros(n - b.size), b.inds + Zeros(n - b.size), b.moved + b.size)
  }

  /** Room for one more entry, growing if there is none. */
  function WithRoom(b: Binds): (r: Binds)
    requires b.Ok()
    ensures r.Ok() && r.num == b.num < r.size
  {
    if b.num >= b.size then GrowBinds(b, b.num + 1) else b
  }

  /** OCI's reply to a bind by name: refused, accepted, or accepted but refused for an array. */
  datatype BindReply = Refused | Half(h: Handle) | Bound(h: Handle)

  /** One bind by name takes the next entry when it is fully accepted. */
  function BindNext(b: Binds, reply: BindReply): (r: Binds)
    requires b.Ok()
    ensures r.Ok()
  {
    var g := WithRoom(b);
    match reply
    case Refused => g
    case Half(h) => g.(ptrs := g.ptrs[g.num := h])
    case Bound(h) => g.(ptrs := g.ptrs[g.num := h], num := g.num + 1)
  }

  /** Binds by name one after another. */
  function BindAll(b: Binds, replies: seq<BindReply>): (r: Binds)
    requires b.Ok()
    ensures r.Ok()
    decreases |replies|
  {
    if replies == [] then b else BindNext(BindAll(b, replies[..|replies| - 1]), replies[|replies| - 1])
  }

  /** The handles of the accepted ones. */
  function Accepted(replies: seq<BindReply>): (hs: seq<Handle>)
    decreases |replies|
  {
    if replies == [] then []
    else
      var last := replies[|replies| - 1];
      Accepted(replies[..|replies| - 1]) + if last.Bound? then [last.h] else []
  }

  /** Binding n parameters one after another, whatever OCI replies, keeps the accepted ones, in order, and
      leaves the spare entries zero unless one was half accepted; it never holds more than 2n
      entries, and copies fewer than 2n elements over all reallocations. */
  lemma {:induction false} AmortisedGrowth(replies: seq<BindReply>)
    ensures var b := BindAll(NO_BINDS, replies);
      && b.Ok() && b.ptrs[..b.num] == Accepted(replies)
      && ((forall r <- replies :: !r.Half?) ==> forall i :: b.num <= i < b.size ==> b.ptrs[i] == NULL)
      && (forall i :: 0 <= i < b.size ==> b.inds[i] == 0)
      && b.size <= 2 * |replies| && b.num <= |replies|
      && b.moved <= b.size && (replies != [] ==> b.moved < 2 * |replies|)
    decreases |replies|
  {
    if replies != [] {
      var before := replies[..|replies| - 1];
      var last := replies[|replies| - 1];
      AmortisedGrowth(before);
      var b := BindAll(NO_BINDS, before);
      OneMore(b, last);
      if forall r <- replies :: !r.Half? {
        assert forall r <- before :: r in replies;
        assert last in replies;
      }
    }
  }

  lemma OneMore(b: Binds, reply: BindReply)
    requires b.Ok() && b.moved <= b.size && forall i :: 0 <= i < b.size ==> b.inds[i] == 0
    ensures var r := BindNext(b, reply);
      && r.ptrs[..r.num] == b.ptrs[..b.num] + (if reply.Bound? then [reply.h] else [])
      && (forall i :: 0 <= i < r.size ==> r.inds[i] == 0)
      && (r.size == b.size || r.size == 1 || r.size == 2 * (b.num + 1)) && r.moved <= r.size
      && (r.moved == b.moved || r.moved == b.moved + b.size)
      && ((forall i :: b.num <= i < b.size ==> b.ptrs[i] == NULL) && !reply.Half? ==>
            forall i :: r.num <= i < r.size ==> r.ptrs[i] == NULL)
  {
    var r := BindNext(b, reply);
    assert r.ptrs[..b.num] == b.ptrs[..b.num];
    if reply.Bound? {
      assert r.ptrs[..r.num] == b.ptrs[..b.num] + [reply.h];
    }
  }

  function ResetBinds(b: Binds): (r: Binds)
    requires b.Ok()
    ensures r.Ok()
  {
    b.(num := 0, ptrs := seq(b.size, i requires 0 <= i < b.size => if i < b.num then NULL else b.ptrs[i]))
  }

  /** Clearing the binds: nothing is bound, and no handle of an earlier bind is left; the rest stays. */
  lemma ResetClears(b: Binds)
    requires b.Ok()
    ensures var r := ResetBinds(b);
      && r.num == 0 && r.size == b.size && r.inds == b.inds && r.moved == b.moved
      && forall i :: 0 <= i < b.size ==> r.ptrs[i] == if i < b.num then NULL else b.ptrs[i]
  {
  }

  /** Growing keeps every entry, adds zeros, and copies the old array once; room that is there is left alone. */
  lemma GrowingKeepsBinds(b: Binds, want: nat)
    requires b.Ok()
    ensures var r := GrowBinds(b, want);
      && (want <= b.size ==> r == b)
      && (want > b.size ==> r.size == (if want == 1 then 1 else 2 * want) && r.moved == b.moved + b.size)
      && r.ptrs[..b.size] == b.ptrs && r.inds[..b.size] == b.inds
      && forall i :: b.size <= i < r.size ==> r.ptrs[i] == NULL && r.inds[i] == 0
  {
  }

  // -------------------------------------------------------------- define arrays

  /** Per-column record; zeroed when its array grows. */
  datatype ColumnInfo = ColumnInfo(pos: nat, dtype: int, desc: Column)

  const ZERO_COLUMN := ColumnInfo(0, 0, BLANK)

  /** The eight parallel arrays of the output side. `size` is `defnpv_size`, `generation`
      counts the allocations of the arrays, `memory[i]` is the number of bytes really allocated
      for column i (0 when `outv[i]` is NULL) and `outvSize[i]` the recorded size.
      Fresh entries of `names` stay uninitialised. */
  datatype Defines = Defines(size: nat, num: nat, generation: nat,
                             ptrs: seq<Handle>, cols: seq<ColumnInfo>, memory: seq<nat>, outvSize: seq<nat>,
                             oind: seq<nat>, rlen: seq<nat>, names: seq<string>, nameSize: seq<nat>)
  {
    ghost predicate Ok() {
      && |ptrs| == |cols| == |memory| == |outvSize| == |oind| == |rlen| == |names| == |nameSize| == size
      && num <= size
      && forall i :: 0 <= i < size ==> outvSize[i] <= memory[i]
    }
  }

  const NO_DEFINES := Defines(0, 0, 0, [], [], [], [], [], [], [], [])

  /** Whatever the allocator left in a new entry of `ocol_namev`, which is not zeroed. */
  const UNINITIALISED := "?"

  function GrowDefines(d: Defines, want: nat): (r: Defines)
    requires d.Ok()
    ensures r.Ok() && want <= r.size && r.num == d.num
  {
    if want <= d.size then d
    else
      var n := Grown(want, MIN_DEFNP);
      var more := n - d.size;
      Defines(n, d.num, d.generation + 1,
              d.ptrs + Zeros(more), d.cols + seq(more, _ => ZERO_COLUMN),
              d.memory + Zeros(more), d.outvSize + Zeros(more), d.oind + Zeros(more), d.rlen + Zeros(more),
              d.names + seq(more, _ => UNINITIALISED), d.nameSize + Zeros(more))
  }

  /** `_calc_obuf_size`: the bytes one value needs as text; None for types it cannot handle. */
  function BufferNeed(c: Column, maxLong: nat): (r: (bool, nat))
    ensures r.0 <==> !c.dbType.LobType?
    ensures c.dbType.Numeric? ==>
      r.1 >= c.prec + 3 && r.1 >= 2 * c.dbsize + 3 && (c.scale > c.prec ==> r.1 >= c.scale + 3)
    ensures c.dbType.Numeric? ==>
      r.1 == c.prec + 3 || r.1 == 2 * c.dbsize + 3 || (c.scale > c.prec && r.1 == c.scale + 3)
    ensures (c.dbType.Character? ==> r.1 == c.dbsize + 1) && (c.dbType.OtherType? ==> r.1 == 8 * c.dbsize + 1)
    ensures (c.dbType.RowId? ==> r.1 == 32) && (c.dbType.DateTime? ==> r.1 == 64) && (c.dbType.Long? ==> r.1 == maxLong)
  {
    match c.dbType
    case Numeric =>
      var n := if c.scale > c.prec then c.scale + 3
               else if c.prec > 0 then c.prec + 3
               else 2 * c.dbsize + 3;
      (true, if n < 2 * c.dbsize + 3 then 2 * c.dbsize + 3 else n)
    case Character => (true, c.dbsize + 1)
    case RowId => (true, 32)
    case DateTime => (true, 64)
    case Long => (true, maxLong)
    case LobType => (false, 0)
    case OtherType => (true, 8 * c.dbsize + 1)
  }

  /** `_alloc_ocol_buffer` for column index `p`. The recorded size follows the request even
      when the memory already there is larger. */
  function Buffered(d: Defines, p: nat, want: nat, maxLong: nat): (r: Defines)
    requires d.Ok() && p < d.size
    ensures r.Ok() && r.size == d.size && want <= r.outvSize[p]
    ensures r == d.(memory := d.memory[p := r.memory[p]], outvSize := d.outvSize[p := r.outvSize[p]])
  {
    if d.memory[p] == 0 then
      var n := if want == 0 then 0 else if want < MIN_OBUF_SIZE then MIN_OBUF_SIZE else want;
      d.(memory := d.memory[p := n], outvSize := d.outvSize[p := n])
    else if want > d.outvSize[p] then
      var n := if want < maxLong then 2 * want else want;
      d.(memory := d.memory[p := n], outvSize := d.outvSize[p := n])
    else
      d.(outvSize := d.outvSize[p := want])
  }

  /** What `sqlo_close` keeps of the output side: LONG-sized buffers go, the others are
      kept for the slot's next statement. */
  function DropDefines(d: Defines, maxLong: nat): (r: Defines)
    requires d.Ok()
    ensures r.Ok()
  {
    d.(num := 0,
       ptrs := seq(d.size, i requires 0 <= i < d.size => if i < d.num then NULL else d.ptrs[i]),
       memory := seq(d.size, i requires 0 <= i < d.size =>
                               if i < d.num && d.outvSize[i] >= maxLong then 0 else d.memory[i]),
       outvSize := seq(d.size, i requires 0 <= i < d.size =>
                                 if i < d.num && d.outvSize[i] >= maxLong then 0 else d.outvSize[i]))
  }

  /** Growing the define arrays keeps every entry, adds zeros, and is one more allocation. */
  lemma GrowingKeepsDefines(d: Defines, want: nat)
    requires d.Ok()
    ensures var r := GrowDefines(d, want);
      && (want <= d.size ==> r == d)
      && (want > d.size ==> r.size == (if want == 1 then 1 else 2 * want) && r.generation == d.generation + 1)
      && r.ptrs[..d.size] == d.ptrs && r.cols[..d.size] == d.cols && r.memory[..d.size] == d.memory
      && r.outvSize[..d.size] == d.outvSize && r.oind[..d.size] == d.oind && r.rlen[..d.size] == d.rlen
      && r.names[..d.size] == d.names && r.nameSize[..d.size] == d.nameSize
      && forall i :: d.size <= i < r.size ==>
           && r.ptrs[i] == NULL && r.cols[i] == ColumnInfo(0, 0, BLANK) && r.memory[i] == r.outvSize[i] == 0
           && r.oind[i] == r.rlen[i] == r.nameSize[i] == 0
  {
  }

  /** The buffer of a column: a new one has the size asked for, one that is too small is replaced by twice
      what is asked, short of LONG, and one that will do stays, recorded with the size asked for. */
  lemma BufferGrows(d: Defines, p: nat, want: nat, maxLong: nat)
    requires d.Ok() && p < d.size
    ensures var r := Buffered(d, p, want, maxLong);
      && (d.memory[p] == 0 ==> r.memory[p] == r.outvSize[p] == want)
      && (d.memory[p] > 0 && want > d.outvSize[p] ==>
            r.memory[p] == r.outvSize[p] && (want < maxLong ==> r.memory[p] == 2 * want)
            && (want >= maxLong ==> r.memory[p] == want))
      && (d.memory[p] > 0 && want <= d.outvSize[p] ==> r.memory[p] == d.memory[p] && r.outvSize[p] == want)
  {
  }

  /** Closing: the buffers in use of LONG size are gone, all others stay with their sizes; no define handle
      is left. */
  lemma DroppingKeeps(d: Defines, maxLong: nat)
    requires d.Ok()
    ensures var r := DropDefines(d, maxLong);
      && r == d.(num := 0, ptrs := r.ptrs, memory := r.memory, outvSize := r.outvSize)
      && forall i :: 0 <= i < d.size ==>
           && r.ptrs[i] == (if i < d.num then NULL else d.ptrs[i])
           && (if i < d.num && d.outvSize[i] >= maxLong then r.memory[i] == r.outvSize[i] == 0
               else r.memory[i] == d.memory[i] && r.outvSize[i] == d.outvSize[i])
  {
  }

  /** What a slot's output side goes through: space for the columns of a query is reserved, the next column is
      given its buffer and its define is accepted or not, the statement is closed and the slot goes to another,
      or the session ends. */
  datatype BufferOp = ReserveOp(n: nat) | DefineOp(col: Column, accepted: bool) | CloseOp | FreeOp

  /** The arrays after such operations, and what `_calc_obuf_size` asked for each column defined
      since the last close. A column of an unsupported type is not defined. */
  function Recycled(ops: seq<BufferOp>, maxLong: nat): (r: (Defines, seq<nat>))
    ensures r.0.Ok() && |r.1| == r.0.num
    decreases |ops|
  {
    if ops == [] then (NO_DEFINES, [])
    else
      var r := Recycled(ops[..|ops| - 1], maxLong);
      match ops[|ops| - 1]
      case ReserveOp(n) => (GrowDefines(r.0, n), r.1)
      case CloseOp => (DropDefines(r.0, maxLong), [])
      case FreeOp => (NO_DEFINES, [])
      case DefineOp(col, accepted) =>
        var need := BufferNeed(col, maxLong);
        if !need.0 then r
        else
          var d := Buffered(GrowDefines(r.0, r.0.num + 1), r.0.num, need.1, maxLong);
          if accepted then (d.(num := d.num + 1), r.1 + [need.1]) else (d, r.1)
  }

  /** Every defined column's recorded size is at least what was asked for it and at most what is allocated. */
  ghost predicate Fits(d: Defines, asked: seq<nat>) {
    d.Ok() && |asked| == d.num && forall i :: 0 <= i < d.num ==> asked[i] <= d.outvSize[i] <= d.memory[i]
  }

  /** ... over any sequence of defining, closing and recycling with any column types. */
  lemma {:induction false} BuffersFit(ops: seq<BufferOp>, maxLong: nat)
    ensures Fits(Recycled(ops, maxLong).0, Recycled(ops, maxLong).1)
    decreases |ops|
  {
    hide Fits, Buffered, GrowDefines, DropDefines;
    NothingFits();
    if ops != [] {
      BuffersFit(ops[..|ops| - 1], maxLong);
      var r := Recycled(ops[..|ops| - 1], maxLong);
      match ops[|ops| - 1]
      case ReserveOp(n) => GrownFits(r.0, r.1, n);
      case CloseOp => ClosedFits(r.0, maxLong);
      case FreeOp =>
      case DefineOp(col, accepted) => DefiningFits(r.0, r.1, BufferNeed(col, maxLong).1, maxLong);
    }
  }

  lemma NothingFits()
    ensures Fits(NO_DEFINES, [])
  {
  }

  lemma ClosedFits(d: Defines, maxLong: nat)
    requires d.Ok()
    ensures Fits(DropDefines(d, maxLong), [])
  {
  }

  lemma GrownFits(d: Defines, asked: seq<nat>, n: nat)
    requires Fits(d, asked)
    ensures Fits(GrowDefines(d, n), asked)
  {
    GrowingKeepsBuffers(d, n);
  }

  lemma DefiningFits(d: Defines, asked: seq<nat>, need: nat, maxLong: nat)
    requires Fits(d, asked)
    ensures var d' := Buffered(GrowDefines(d, d.num + 1), d.num, need, maxLong);
      Fits(d'.(num := d.num + 1), asked + [need]) && Fits(d', asked)
  {
    hide Buffered, GrowDefines;
    GrowingKeepsBuffers(d, d.num + 1);
  }

  lemma GrowingKeepsBuffers(d: Defines, want: nat)
    requires d.Ok()
    ensures var g := GrowDefines(d, want);
      forall i :: 0 <= i < d.size ==> g.outvSize[i] == d.outvSize[i] && g.memory[i] == d.memory[i]
  {
  }

  // ------------------------------------------------------------------ statement

  datatype State = State(sth: nat, handle: Handle, stype: int, cursor: CursorType,
                         isOpen: bool, prepared: bool, used: bool, stillExecuting: bool, numExecutions: nat,
                         binds: Binds, defs: Defines)
  {
    ghost predicate Ok() {
      binds.Ok() && defs.Ok()
    }

    predicate IsQuery() { stype == STMT_SELECT }

    predicate IsPlsql() { stype == STMT_DECLARE || stype == STMT_BEGIN }

    /** Every flag down, as `_stmt_release` leaves them. */
    predicate Idle() {
      !used && !isOpen && !prepared && !stillExecuting && numExecutions == 0
    }

    /** Executing a query that is not open yet: what `sqlo_open2` looks for to resume. */
    predicate Resumable() {
      used && !isOpen && IsQuery() && stillExecuting
    }
  }

  /** A slot as `_stmtv_alloc` zeroes it. */
  const ZERO := State(0, NULL, 0, Default, false, false, false, false, 0, NO_BINDS, NO_DEFINES)

  function Released(s: State): State {
    s.(used := false, isOpen := false, prepared := false, stillExecuting := false, numExecutions := 0)
  }

  /** `_stmt_init` on the slot just taken. */
  function Initialised(s: State, slot: nat): State {
    s.(sth := slot, used := true, handle := NULL, stype := 0, isOpen := false, prepared := false,
       stillExecuting := false, numExecutions := 0, cursor := Default)
  }

  lemma InitialisedOk(s: State, slot: nat)
    requires s.Ok()
    ensures Initialised(s, slot).Ok()
  {
  }

  // ------------------------------------------------------------------ the object

  /** A slot of `stmtv`, updated in place. `owner` and `slot` say where it lives. The bind arrays with
      their counters are one field, the define arrays with theirs another. */
  class Statement {
    ghost const owner: object
    ghost const slot: nat

    var sth: nat
    var stmthp: Handle
    var stype: int
    var cursorType: CursorType
    var isOpen: bool
    var prepared: bool
    var used: bool
    var stillExecuting: bool
    var numExecutions: nat
    var inputs: Binds
    var outputs: Defines

    ghost function View(): State
      reads this
    {
      State(sth, stmthp, stype, cursorType, isOpen, prepared, used, stillExecuting, numExecutions, inputs, outputs)
    }

    /** A zeroed slot, as `_stmtv_alloc` makes them. */
    constructor (ghost owner: object, ghost slot: nat)
      ensures View() == ZERO && this.owner == owner && this.slot == slot
    {
      this.owner, this.slot := owner, slot;
      sth, stmthp, stype, cursorType := 0, NULL, 0, Default;
      isOpen, prepared, used, stillExecuting, numExecutions := false, false, false, false, 0;
      inputs, outputs := NO_BINDS, NO_DEFINES;
    }

    /** `_stmt_release`. */
    method Release()
      modifies this`used, this`isOpen, this`prepared, this`stillExecuting, this`numExecutions
      ensures View() == Released(old(View()))
    {
      used := false;
      isOpen := false;
      prepared := false;
      stillExecuting := false;
      numExecutions := 0;
    }

    /** `_stmt_init`, after `_get_stmt_ptr` has taken the slot. */
    method Init(slot: nat)
      modifies this
      ensures View() == Initialised(old(View()), slot)
    {
      sth := slot;
      used := true;
      stmthp := NULL;
      stype := 0;
      isOpen := false;
      prepared := false;
      stillExecuting := false;
      numExecutions := 0;
      cursorType := Default;
    }

    /** `_bindpv_reset`: entry by entry. */
    method BindpvReset()
      requires inputs.Ok()
      modifies this`inputs
      ensures inputs == ResetBinds(old(inputs))
    {
      var i := 0;
      while i < inputs.num
        invariant i <= inputs.num && |inputs.ptrs| == inputs.size
        invariant inputs == old(inputs).(ptrs := inputs.ptrs)
        invariant forall j :: 0 <= j < inputs.size ==> inputs.ptrs[j] == if j < i then NULL else old(inputs).ptrs[j]
      {
        inputs := inputs.(ptrs := inputs.ptrs[i := NULL]);
        i := i + 1;
      }
      inputs := inputs.(num := 0);
      assert inputs.ptrs == ResetBinds(old(inputs)).ptrs;
    }

    /** `_alloc_bindp`. */
    method AllocBindp(want: nat)
      requires inputs.Ok()
      modifies this`inputs
      ensures inputs == GrowBinds(old(inputs), want)
    {
      if want > inputs.size {
        var size := if want <= MIN_BINDP then MIN_BINDP else 2 * want;
        var numNew := size - inputs.size;
        inputs := inputs.(ptrs := inputs.ptrs + Zeros(numNew), inds := inputs.inds + Zeros(numNew),
                          moved := inputs.moved + inputs.size);
        inputs := inputs.(size := size);
      }
    }

    /** `_dealloc_bindp`. */
    method DeallocBindp()
      modifies this`inputs
      ensures inputs == NO_BINDS
    {
      inputs := NO_BINDS;
    }

    /** `_alloc_definep`: all eight arrays together, the new entries zeroed, except the names. */
    method AllocDefinep(want: nat)
      requires outputs.Ok()
      modifies this`outputs
      ensures outputs == GrowDefines(old(outputs), want)
    {
      if want > outputs.size {
        var size := if want <= MIN_DEFNP then MIN_DEFNP else 2 * want;
        var numNew := size - outputs.size;
        var zeros := Zeros(numNew);
        outputs := outputs.(generation := outputs.generation + 1,
                            ptrs := outputs.ptrs + zeros, cols := outputs.cols + seq(numNew, _ => ZERO_COLUMN),
                            memory := outputs.memory + zeros, outvSize := outputs.outvSize + zeros,
                            oind := outputs.oind + zeros, rlen := outputs.rlen + zeros,
                            names := outputs.names + seq(numNew, _ => UNINITIALISED),
                            nameSize := outputs.nameSize + zeros);
        outputs := outputs.(size := size);
      }
    }

    /** `_dealloc_definep`. */
    method DeallocDefinep()
      modifies this`outputs
      ensures outputs == NO_DEFINES.(generation := old(outputs).generation)
    {
      outputs := NO_DEFINES.(generation := outputs.generation);
    }

    /** `_alloc_ocol_buffer` for column index `p`. */
    method AllocOcolBuffer(p: nat, want: nat, maxLong: nat)
      requires outputs.Ok() && p < outputs.size
      modifies this`outputs
      ensures outputs == Buffered(old(outputs), p, want, maxLong)
    {
      var size := want;
      if outputs.memory[p] == 0 {
        if size != 0 {
          if size < MIN_OBUF_SIZE {
            size := MIN_OBUF_SIZE;
          }
          outputs := outputs.(memory := outputs.memory[p := size]);
        }
      } else if size > outputs.outvSize[p] {
        if size < maxLong {
          size := 2 * size;
        }
        outputs := outputs.(memory := outputs.memory[p := size]);
      }
      outputs := outputs.(outvSize := outputs.outvSize[p := size]);
      assert outputs.memory == Buffered(old(outputs), p, want, maxLong).memory;
    }

    /** The output side of `sqlo_close`: give up LONG-sized buffers, clear the define handles. */
    method DropOutputs(maxLong: nat)
      requires outputs.Ok()
      modifies this`outputs
      ensures outputs == DropDefines(old(outputs), maxLong)
    {
      ghost var was := outputs;
      var i := 0;
      while i < outputs.num
        invariant i <= outputs.num && |outputs.memory| == |outputs.outvSize| == was.size
        invariant outputs == was.(memory := outputs.memory, outvSize := outputs.outvSize)
        invariant forall j :: 0 <= j < was.size ==>
          if j < i && was.outvSize[j] >= maxLong then outputs.memory[j] == 0 && outputs.outvSize[j] == 0
          else outputs.memory[j] == was.memory[j] && outputs.outvSize[j] == was.outvSize[j]
      {
        if outputs.outvSize[i] >= maxLong {
          outputs := outputs.(memory := outputs.memory[i := 0]);
          outputs := outputs.(outvSize := outputs.outvSize[i := 0]);
        }
        i := i + 1;
      }
      outputs := outputs.(ptrs := Zeros(outputs.num) + outputs.ptrs[outputs.num..]);
      outputs := outputs.(num := 0);
      ghost var d := DropDefines(was, maxLong);
      assert outputs.ptrs == d.ptrs && outputs.memory == d.memory && outputs.outvSize == d.outvSize;
    }
  }
}
