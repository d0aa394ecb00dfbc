/** A connection with its statement table, updated in place. Every method does to the objects
    what the functions on values say. */
module ConnectionObjects {
  import opened Oci
  import opened Handles
  import opened Statements
  import Cursors
  import CursorTables
  import Connections
  import Replies

  ghost function Views(stmtv: seq<Statement>): (s: seq<State>)
    reads stmtv
    ensures |s| == |stmtv| && forall i :: 0 <= i < |stmtv| ==> s[i] == stmtv[i].View()
  {
    seq(|stmtv|, i requires 0 <= i < |stmtv| reads stmtv => stmtv[i].View())
  }

  /** `sqlo_db_struct_t`: `link` holds its OCI handles and flags, `oci` is the environment of this
      connection. Its index in `_dbv` never changes. */
  class Connection {
    const dbh: nat
    var stmtv: seq<Statement>
    var link: Connections.Link
    var status: int
    var nonBlocking: bool
    var oci: Oracle

    /** A zeroed entry, as `_db_alloc` makes it. */
    constructor (dbh: nat, oci: Oracle)
      ensures this.dbh == dbh && this.oci == oci && stmtv == [] && link == Connections.ZERO_LINK
    {
      this.dbh := dbh;
      stmtv := [];
      link, status, nonBlocking := Connections.ZERO_LINK, SUCCESS, false;
      this.oci := oci;
    }

    ghost function Slots(): (s: seq<State>)
      reads this`stmtv, stmtv
      ensures |s| == |stmtv| && forall i :: 0 <= i < |stmtv| ==> s[i] == stmtv[i].View()
    {
      Views(stmtv)
    }

    ghost function Table(): CursorTables.Table
      reads this, stmtv
    {
      CursorTables.Table(Slots(), oci, status, nonBlocking)
    }

    ghost function View(): Connections.Conn
      reads this, stmtv
    {
      Connections.Conn(link, Table())
    }

    /** The connection is what the value says, field by field. */
    ghost predicate Shows(v: Connections.Conn)
      reads this, stmtv
    {
      link == v.link && Slots() == v.tb.slots && oci == v.tb.oci && status == v.tb.status
        && nonBlocking == v.tb.nonBlocking
    }

    lemma Seen(v: Connections.Conn)
      requires Shows(v)
      ensures View() == v
    {
    }

    /** The cursor at one of the slots. */
    ghost function Cur(stp: Statement): Cursors.Cursor
      reads this`oci, this`status, stp
    {
      Cursors.Cursor(stp.View(), oci, status)
    }

    /** Nothing of the connection changed but its environment and its status. */
    twostate predicate OnlyConversation()
      reads this
    {
      unchanged(this`stmtv, this`link, this`nonBlocking)
    }

    /** The statements are this connection's own, each in its place, with sound arrays. */
    ghost predicate Valid()
      reads this`stmtv, stmtv
    {
      && |stmtv| <= MAX_CURSORS
      && forall i :: 0 <= i < |stmtv| ==> stmtv[i].owner == this && stmtv[i].slot == i && stmtv[i].View().Ok()
    }

    /** ... and the lifecycle invariant holds. */
    ghost predicate Good()
      reads this`stmtv, this`link, stmtv
    {
      && Valid() && Connections.SlotsOk(Slots()) && Connections.LinkOk(link)
      && (!link.used ==> forall i :: 0 <= i < |stmtv| ==> Slots()[i].Idle())
    }

    /** `_get_stmt_ptr`, up to taking the slot. */
    method FindFreeStatement() returns (i: nat)
      requires Valid()
      ensures i == CursorTables.FirstFree(Slots())
    {
      i := 0;
      while i < |stmtv| && stmtv[i].used
        invariant i <= |stmtv| && forall j :: 0 <= j < i ==> Slots()[j].used
      {
        assert Slots()[i].used;
        i := i + 1;
      }
      assert i < |stmtv| ==> !Slots()[i].used;
    }

    /** OCIHandleAlloc for a slot; when refused the slot is released. */
    method AllocStatement(stp: Statement)
      requires stp.View().Ok()
      modifies stp, this`oci, this`status
      ensures Cur(stp) == Cursors.Allocate(old(Cur(stp)))
    {
      status := oci.Now().alloc;
      oci := oci.Rest();
      if status != SUCCESS {
        stp.Release();
      } else {
        oci := oci.(last := oci.last + 1, columns := oci.columns - {oci.last + 1});
        stp.stmthp := oci.last;
      }
    }

    /** `_stmt_new`: take the first free slot and allocate its OCI handle. */
    method StmtNew() returns (st: int, stp: Statement?, ghost i: nat)
      requires Valid()
      modifies stmtv, this`oci, this`status
      ensures Valid() && st == status && i == CursorTables.FirstFree(old(Slots()))
      ensures i == |stmtv| <==> stp == null
      ensures stp == null ==> st == ERRMALLOC && oci == old(oci) && Slots() == old(Slots())
      ensures i < |stmtv| ==>
        && stp == stmtv[i] && Cur(stp) == CursorTables.NewStatement(old(Table())) && stp.sth == i
        && (st == SUCCESS ==> stp.used)
      ensures forall s <- stmtv :: s != stp ==> unchanged(s)
    {
      hide State.Ok, Within;
      var k := FindFreeStatement();
      i := k;
      if k == |stmtv| {
        status := ERRMALLOC;
        assert Slots() == old(Slots());
        return status, null, i;
      }
      stp := stmtv[k];
      InitialisedOk(stp.View(), k);
      stp.Init(k);
      AllocStatement(stp);
      st := status;
    }

    /** `_prepare`. */
    method Prepare(stp: Statement) returns (st: int)
      requires stp.View().Ok()
      modifies stp`prepared, stp`stype, this`oci, this`status
      ensures Cur(stp) == Cursors.Prepare(old(Cur(stp))) && st == status
    {
      status := oci.Now().prepare;
      oci := oci.Rest().(prepared := oci.prepared + multiset{stp.stmthp});
      if status != SUCCESS {
        return status;
      }
      stp.prepared := true;
      var t := oci.Now();
      oci := oci.Rest();
      status := t.local;
      if status == SUCCESS {
        stp.stype := t.value;
      }
      st := status;
    }

    /** `_set_prefetch_rows`. */
    method SetPrefetchRows(stp: Statement) returns (st: int)
      requires stp.View().Ok()
      modifies this`oci, this`status
      ensures Cur(stp) == Cursors.Local(old(Cur(stp))) && st == status
    {
      status := oci.Now().local;
      oci := oci.Rest();
      st := status;
    }

    /** OCIStmtExecute on the slot's handle. */
    method Execute(stp: Statement)
      requires stp.View().Ok()
      modifies this`oci, this`status
      ensures Cur(stp) == Cursors.Execute(old(Cur(stp)))
    {
      status := oci.Now().execute;
      oci := oci.Rest().(executed := oci.executed + multiset{stp.stmthp});
    }

    /** `_bind_by_pos` at index `p`. */
    method BindByPos(stp: Statement, p: nat, isArray: bool) returns (st: int)
      requires stp.View().Ok()
      modifies stp`inputs, this`oci, this`status
      ensures Cur(stp) == Cursors.BindByPos(old(Cur(stp)), p, isArray) && st == status
    {
      if !stp.prepared {
        status := STMT_NOT_PARSED;
        return status;
      }
      if p + 1 > stp.inputs.size {
        stp.AllocBindp(p + 1);
      }
      var t := oci.Now();
      status := t.bind;
      oci := oci.Rest();
      if status != SUCCESS {
        return status;
      }
      stp.inputs := stp.inputs.(ptrs := stp.inputs.ptrs[p := t.value + 1]);
      if isArray {
        status := oci.Now().bind;
        oci := oci.Rest();
        if status != SUCCESS {
          return status;
        }
      }
      if p + 1 > stp.inputs.num {
        stp.inputs := stp.inputs.(num := p + 1);
      }
      oci := oci.(bound := oci.bound + multiset{(stp.stmthp, p + 1)});
      st := status;
    }

    /** One turn of the loop of `_bind_argv`: the indicator, then the bind. */
    method BindArgument(stp: Statement, p: nat, arg: string) returns (st: int)
      requires stp.View().Ok() && p < stp.inputs.size
      modifies stp`inputs, this`oci, this`status
      ensures Cur(stp) == Cursors.BindOne(old(Cur(stp)), p, arg) && st == status
    {
      hide Cursors.BindByPos;
      stp.inputs := stp.inputs.(inds := stp.inputs.inds[p := if arg == "" then NULL_IND else NOT_NULL_IND]);
      st := BindByPos(stp, p, false);
    }

    /** `_bind_argv`. */
    method BindArgv(stp: Statement, args: seq<string>) returns (st: int)
      requires stp.View().Ok()
      modifies stp`inputs, this`oci, this`status
      ensures Cur(stp) == Cursors.BindArgv(old(Cur(stp)), args) && st == status
    {
      hide Cursors.BindOne;
      status := SUCCESS;
      if |args| > stp.inputs.size {
        stp.AllocBindp(|args|);
      }
      ghost var k0 := Cur(stp);
      var p := 0;
      while p < |args|
        invariant p <= |args| <= stp.inputs.size && stp.View().Ok() && status == SUCCESS
        invariant Cursors.BindFrom(Cur(stp), args, p) == Cursors.BindFrom(k0, args, 0)
      {
        status := BindArgument(stp, p, args[p]);
        if status != SUCCESS {
          return status;
        }
        p := p + 1;
      }
      st := status;
    }

    /** `sqlo_bind_by_name` on a statement in use. */
    method BindByName(stp: Statement, isArray: bool) returns (st: int)
      requires stp.View().Ok()
      modifies stp`inputs, this`oci, this`status
      ensures Cur(stp) == Cursors.BindByName(old(Cur(stp)), isArray) && st == status
    {
      if !stp.prepared {
        status := STMT_NOT_PARSED;
        return status;
      }
      if stp.inputs.num >= stp.inputs.size {
        stp.AllocBindp(stp.inputs.num + 1);
      }
      var t := oci.Now();
      status := t.bind;
      oci := oci.Rest();
      if status != SUCCESS {
        return status;
      }
      stp.inputs := stp.inputs.(ptrs := stp.inputs.ptrs[stp.inputs.num := t.value + 1]);
      if isArray {
        status := oci.Now().bind;
        oci := oci.Rest();
        if status != SUCCESS {
          return status;
        }
      }
      stp.inputs := stp.inputs.(num := stp.inputs.num + 1);
      st := status;
    }

    /** `_define_by_pos` at index `p`. */
    method DefineByPos(stp: Statement, p: nat, dtype: int, isArray: bool) returns (st: int)
      requires stp.View().Ok()
      modifies stp`outputs, this`oci, this`status
      ensures Cur(stp) == Cursors.DefineByPos(old(Cur(stp)), p, dtype, isArray) && st == status
    {
      if !stp.prepared {
        status := STMT_NOT_PARSED;
        return status;
      }
      stp.AllocDefinep(p + 1);
      stp.outputs := stp.outputs.(cols := stp.outputs.cols[p := stp.outputs.cols[p].(dtype := dtype)]);
      var t := oci.Now();
      status := t.local;
      oci := oci.Rest();
      if status != SUCCESS {
        return status;
      }
      stp.outputs := stp.outputs.(ptrs := stp.outputs.ptrs[p := t.value + 1]);
      var address := Address(stp.outputs.generation, p, stp.outputs.outvSize[p]);
      oci := oci.(defined := oci.defined[(stp.stmthp, p + 1) := address]);
      if isArray {
        status := oci.Now().local;
        oci := oci.Rest();
        if status != SUCCESS {
          return status;
        }
      }
      if p + 1 > stp.outputs.num {
        stp.outputs := stp.outputs.(num := p + 1);
      }
      st := status;
    }

    /** The answers to `n` client-side calls, up to the first refusal. */
    twostate predicate Asks(n: nat, t: Turn)
      reads this`oci, this`status
    {
      && oci == old(oci).(script := oci.script)
      && Replies.Asked(status, oci.script, t) == Replies.Asks(old(oci).script, n)
    }

    /** One client-side call. */
    method Ask() returns (t: Turn)
      modifies this`oci, this`status
      ensures Asks(1, t)
    {
      t := oci.Now();
      status := t.local;
      oci := oci.Rest();
    }

    /** OCIParamGet and OCIAttrGet for one attribute of a column. */
    method ReadAttribute() returns (t: Turn)
      modifies this`oci, this`status
      ensures Asks(2, t)
    {
      Replies.AsksThen(oci.script, 1, 1);
      t := Ask();
      if status == SUCCESS {
        t := Ask();
      }
    }

    /** ... and OCIDescriptorFree: `_get_ocol_db_data_type` and its like. */
    method GetAttribute() returns (t: Turn)
      modifies this`oci, this`status
      ensures Asks(3, t)
    {
      Replies.AsksThen(oci.script, 2, 1);
      t := ReadAttribute();
      if status == SUCCESS {
        t := Ask();
      }
    }

    /** The type of a column, and its name as far as it is read. */
    method ReadName() returns (t: Turn)
      modifies this`oci, this`status
      ensures Asks(Replies.CALLS_TO_NAME, t)
    {
      Replies.AsksThen(oci.script, 3, 2);
      t := GetAttribute();
      if status == SUCCESS {
        t := ReadAttribute();
      }
    }

    /** The end of `_set_ocol_name`, then size, precision, scale and the null flag. */
    method ReadRest() returns (t: Turn)
      modifies this`oci, this`status
      ensures Asks(Replies.CALLS_AFTER_NAME, t)
    {
      hide Replies.Asks;
      ghost var script := oci.script;
      Replies.AsksThen(script, 1, 3);
      Replies.AsksThen(script, 4, 3);
      Replies.AsksThen(script, 7, 3);
      Replies.AsksThen(script, 10, 3);
      t := Ask();
      if status == SUCCESS {
        t := GetAttribute();
      }
      if status == SUCCESS {
        t := GetAttribute();
      }
      if status == SUCCESS {
        t := GetAttribute();
      }
      if status == SUCCESS {
        t := GetAttribute();
      }
    }

    /** `_define_ocol_by_pos` at index `p`. */
    method DefineOcolByPos(stp: Statement, p: nat, maxLong: nat) returns (st: int)
      requires stp.View().Ok() && p < stp.outputs.size
      modifies stp`outputs, this`oci, this`status
      ensures Cur(stp) == Cursors.DefineColumn(old(Cur(stp)), p, maxLong) && st == status
    {
      hide Replies.Asks, Cursors.DefineByPos, Buffered;
      stp.outputs := stp.outputs.(cols := stp.outputs.cols[p := stp.outputs.cols[p].(pos := p)]);
      var t := ReadName();
      if status != SUCCESS {
        return status;
      }
      var name := t.col.name;
      stp.outputs := stp.outputs.(names := stp.outputs.names[p := name], nameSize := stp.outputs.nameSize[p := |name|]);
      t := ReadRest();
      if status != SUCCESS {
        return status;
      }
      var col := t.col.(name := name);
      stp.outputs := stp.outputs.(cols := stp.outputs.cols[p := stp.outputs.cols[p].(desc := col)]);
      var need := BufferNeed(col, maxLong);
      if !need.0 {
        status := UNSUPPORTED_DATA_TYPE;
        return status;
      }
      stp.AllocOcolBuffer(p, need.1, maxLong);
      st := DefineByPos(stp, p, SQLT_STR, false);
    }

    /** `_define_output`. */
    method DefineOutput(stp: Statement, maxLong: nat) returns (st: int)
      requires stp.View().Ok()
      modifies stp`outputs, stp`numExecutions, stp`isOpen, this`oci, this`status
      ensures Cur(stp) == Cursors.DefineOutput(old(Cur(stp)), maxLong) && st == status
    {
      hide Cursors.DefineAll;
      if stp.outputs.num != 0 {
        status := SUCCESS;
        return status;
      }
      if stp.numExecutions == 0 && !stp.cursorType.RefCursor? {
        Execute(stp);
        if status != SUCCESS {
          return status;
        }
        stp.numExecutions := stp.numExecutions + 1;
      }
      if stp.cursorType.RefCursor? {
        stp.isOpen := true;
      }
      st := DefineColumns(stp, maxLong);
    }

    /** The second half of `_define_output`. */
    method DefineColumns(stp: Statement, maxLong: nat) returns (st: int)
      requires stp.View().Ok()
      modifies stp`outputs, this`oci, this`status
      ensures Cur(stp) == Cursors.DefineAll(old(Cur(stp)), maxLong) && st == status
    {
      hide Cursors.DefineColumn;
      var t := oci.Now();
      status := t.local;
      oci := oci.Rest();
      if status != SUCCESS {
        return status;
      }
      var numCols := t.value;
      oci := oci.(columns := oci.columns[stp.stmthp := numCols]);
      stp.AllocDefinep(numCols);
      ghost var k0 := Cur(stp);
      var p := 0;
      while p < numCols
        invariant p <= numCols <= stp.outputs.size && stp.View().Ok() && status == SUCCESS
        invariant Cursors.DefineFrom(Cur(stp), p, numCols, maxLong) == Cursors.DefineFrom(k0, 0, numCols, maxLong)
      {
        status := DefineOcolByPos(stp, p, maxLong);
        if status != SUCCESS {
          return status;
        }
        p := p + 1;
      }
      st := status;
    }

    /** `sqlo_close` once the handle has been resolved. */
    method CloseStatement(stp: Statement, maxLong: nat) returns (st: int)
      requires stp.View().Ok()
      modifies stp, this`oci, this`status
      ensures Cur(stp) == Cursors.Close(old(Cur(stp)), maxLong) && st == status
    {
      status := SUCCESS;
      stp.BindpvReset();
      stp.DropOutputs(maxLong);
      if stp.stmthp != NULL {
        status := oci.Now().free;
        oci := oci.Rest().(freed := oci.freed + multiset{stp.stmthp});
        stp.stmthp := NULL;
        if status != SUCCESS {
          return status;
        }
      }
      stp.Release();
      st := status;
    }

    // -------------------------------------------------- attaching and releasing

    ghost function AsWire(): Connections.Wire
      reads this`link, this`oci, this`status
    {
      Connections.Wire(link, oci, status)
    }

    /** OCIHandleAlloc or OCIEnvCreate. */
    method HandleAlloc() returns (h: Handle)
      modifies this`oci, this`status
      ensures (AsWire(), h) == Connections.Grab(old(AsWire()))
    {
      status := oci.Now().alloc;
      oci := oci.Rest();
      h := NULL;
      if status == SUCCESS {
        oci := oci.(last := oci.last + 1);
        h := oci.last;
      }
    }

    /** OCIHandleFree, the reply ignored, unless the handle is NULL. */
    method HandleFree(h: Handle)
      modifies this`oci
      ensures oci == Connections.Discard(old(oci), h)
    {
      if h != NULL {
        oci := oci.Rest().(freed := oci.freed + multiset{h});
      }
    }

    /** `_db_release`. */
    method Release()
      requires Valid()
      modifies this, stmtv
      ensures Valid() && stmtv == old(stmtv) && Shows(Connections.DbRelease(old(View())))
    {
      hide Connections.DiscardAll, Connections.DbRelease, Connections.ReleaseAll, Released, State.Ok, Within;
      Connections.DbReleaseParts(View());
      ReleaseHandles();
      ReleaseStatements();
      ghost var slots := Slots();
      link := link.(attached := false, session := false, used := false);
      assert Slots() == slots;
    }

    /** The handles of `_db_release`, freed and cleared, and its status. */
    method ReleaseHandles()
      modifies this`oci, this`link, this`status
      ensures status == SUCCESS
      ensures link == old(link).(srvhp := NULL, svchp := NULL, errhp := NULL, authp := NULL, envhp := NULL)
      ensures oci == Connections.DiscardAll(old(oci), old(link))
    {
      HandleFree(link.srvhp);
      HandleFree(link.svchp);
      HandleFree(link.errhp);
      HandleFree(link.authp);
      HandleFree(link.envhp);
      link := link.(srvhp := NULL, svchp := NULL, errhp := NULL, authp := NULL, envhp := NULL);
      status := SUCCESS;
    }

    /** The loop of `_db_release` over the statements. */
    method ReleaseStatements()
      requires Valid()
      modifies stmtv
      ensures Valid() && Slots() == Connections.ReleaseAll(old(Slots()))
    {
      ghost var slots := Slots();
      var i := 0;
      while i < |stmtv|
        invariant i <= |stmtv| && Valid()
        invariant forall j :: 0 <= j < |stmtv| ==> stmtv[j].View() == if j < i then Released(slots[j]) else slots[j]
      {
        stmtv[i].Release();
        assert stmtv[i].View() == Released(slots[i]);
        i := i + 1;
      }
    }

    /** `sqlo_server_attach`, once the slot is picked and the server's name is known. */
    method ServerAttach()
      requires Valid()
      modifies this, stmtv
      ensures Valid() && stmtv == old(stmtv) && Shows(Connections.Attach(old(View())))
    {
      hide Connections.AttachWire, Connections.DbRelease;
      var ok := AttachUntilRefused();
      if !ok {
        Release();
      }
    }

    /** The OCI calls of `sqlo_server_attach`; every refusal leads to the same release. */
    method AttachUntilRefused() returns (ok: bool)
      modifies this`link, this`oci, this`status
      ensures (AsWire(), ok) == Connections.AttachWire(old(AsWire()))
    {
      hide Connections.AttachServer;
      var h := HandleAlloc();
      link := link.(envhp := h);
      if status != SUCCESS {
        return false;
      }
      h := HandleAlloc();
      link := link.(svchp := h);
      if status != SUCCESS {
        return false;
      }
      h := HandleAlloc();
      link := link.(errhp := h);
      if status != SUCCESS {
        return false;
      }
      h := HandleAlloc();
      link := link.(srvhp := h);
      if status != SUCCESS {
        return false;
      }
      ok := AttachToServer();
    }

    /** ... from OCIServerAttach on. */
    method AttachToServer() returns (ok: bool)
      modifies this`link, this`oci, this`status
      ensures (AsWire(), ok) == Connections.AttachServer(old(AsWire()))
    {
      status := oci.Now().link;
      oci := oci.Rest();
      if status != SUCCESS {
        return false;
      }
      status := oci.Now().local;
      oci := oci.Rest();
      if status != SUCCESS {
        return false;
      }
      var h := HandleAlloc();
      link := link.(authp := h);
      if status != SUCCESS {
        return false;
      }
      link := link.(used := true, attached := true);
      ok := true;
    }

    // ---------------------------------------------------------------- sessions

    /** `sqlo_session_begin` on this connection. */
    method BeginSession() returns (st: int)
      modifies this`link, this`oci, this`status
      ensures (AsWire(), st) == Connections.BeginWire(old(AsWire()))
    {
      if !link.used || !link.attached || link.session {
        return INVALID_DB_HANDLE;
      }
      status := oci.Now().local;
      oci := oci.Rest();
      if status != SUCCESS {
        return status;
      }
      status := oci.Now().local;
      oci := oci.Rest();
      if status != SUCCESS {
        return status;
      }
      BeginLoop();
      if status != SUCCESS {
        return status;
      }
      LocalLoop();
      if status != SUCCESS {
        return status;
      }
      link := link.(session := true);
      st := status;
    }

    /** The OCISessionBegin loop. */
    method BeginLoop()
      modifies this`oci, this`status
      ensures AsWire() == Connections.PollBegin(old(AsWire()))
    {
      var t := oci.Now();
      status := t.link;
      oci := oci.Rest();
      while status == STILL_EXECUTING || (status == ERROR && t.value == BUSY_CODE)
        invariant status == t.link
        invariant Connections.PollBegin(old(AsWire()))
          == if status == STILL_EXECUTING || (status == ERROR && t.value == BUSY_CODE)
             then Connections.PollBegin(AsWire()) else AsWire()
        decreases status != SUCCESS, |oci.script|
      {
        t := oci.Now();
        status := t.link;
        oci := oci.Rest();
      }
    }

    /** The loop that sets the session attribute. */
    method LocalLoop()
      modifies this`oci, this`status
      ensures AsWire() == Connections.PollLocal(old(AsWire()))
    {
      status := oci.Now().local;
      oci := oci.Rest();
      while status == STILL_EXECUTING
        invariant Connections.PollLocal(old(AsWire()))
          == if status == STILL_EXECUTING then Connections.PollLocal(AsWire()) else AsWire()
        decreases status == STILL_EXECUTING, |oci.script|
      {
        status := oci.Now().local;
        oci := oci.Rest();
      }
    }

    /** The OCISessionEnd loop. */
    method EndLoop()
      modifies this`oci, this`status
      ensures AsWire() == Connections.PollLink(old(AsWire()))
    {
      status := oci.Now().link;
      oci := oci.Rest();
      while status == STILL_EXECUTING
        invariant Connections.PollLink(old(AsWire()))
          == if status == STILL_EXECUTING then Connections.PollLink(AsWire()) else AsWire()
        decreases status == STILL_EXECUTING, |oci.script|
      {
        status := oci.Now().link;
        oci := oci.Rest();
      }
    }

    // -------------------------------------------------------------------- exec

    /** `sqlo_exec` on this connection. */
    method Exec() returns (ret: int)
      modifies this`link, this`oci, this`status
      ensures (AsWire(), ret) == Connections.ExecWire(old(AsWire()))
    {
      hide Connections.ExecuteHandle;
      if !link.used {
        return INVALID_DB_HANDLE;
      }
      if link.stmthp == NULL {
        var h := HandleAlloc();
        if status != SUCCESS {
          return status;
        }
        link := link.(stmthp := h);
        status := oci.Now().prepare;
        oci := oci.Rest().(prepared := oci.prepared + multiset{link.stmthp});
        if status != SUCCESS {
          return status;
        }
      }
      ret := ExecuteHandle();
    }

    /** ... from OCIStmtExecute on. */
    method ExecuteHandle() returns (ret: int)
      modifies this`link, this`oci, this`status
      ensures (AsWire(), ret) == Connections.ExecuteHandle(old(AsWire()))
    {
      status := oci.Now().execute;
      oci := oci.Rest().(executed := oci.executed + multiset{link.stmthp});
      if status == SUCCESS {
        var rows := oci.Now().value;
        status := oci.Now().local;
        oci := oci.Rest();
        if status == SUCCESS {
          status := FreeExecHandle();
          if status != SUCCESS {
            return status;
          }
          link := link.(stmthp := NULL);
          return rows;
        }
      } else if status == STILL_EXECUTING {
        return STILL_EXECUTING;
      }
      var ignored := FreeExecHandle();
      link := link.(stmthp := NULL);
      ret := status;
    }

    /** OCIHandleFree on the handle of `sqlo_exec`. */
    method FreeExecHandle() returns (st: int)
      modifies this`oci
      ensures st == old(oci).Now().free && oci == old(oci).Rest().(freed := old(oci).freed + multiset{link.stmthp})
    {
      st := oci.Now().free;
      oci := oci.Rest().(freed := oci.freed + multiset{link.stmthp});
    }
  }
}
