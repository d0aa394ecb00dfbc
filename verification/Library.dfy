/** The library's globals: the table of connections, through which every call finds its objects. */
module Library {
  import opened Oci
  import opened Handles
  import opened Statements
  import Cursors
  import CursorTables
  import Connections
  import Replies
  import opened ConnectionObjects
  import opened ConnectStrings
  import opened Wrappers

  /** Size of the buffers a connect string is split into, less one. */
  const MAX_BUFLEN := 1023

  /** The library's globals: the table of connections and the limits set by `sqlo_init`. */
  class Sqlora {
    var dbv: seq<Connection?>
    var maxCursors: nat
    var maxLongSize: nat

    /** `sqlo_init`: both tables cut to the limits, no connection yet. `maxLongSize` comes from the
        environment. */
    constructor (maxDb: nat, maxCursors: nat, maxLongSize: nat)
      ensures Valid() && UsedDbs() == {} && |dbv| == (if maxDb <= MAX_DB then maxDb else MAX_DB)
    {
      dbv := seq(if maxDb <= MAX_DB then maxDb else MAX_DB, _ => null);
      this.maxCursors := if maxCursors <= MAX_CURSORS then maxCursors else MAX_CURSORS;
      this.maxLongSize := maxLongSize;
    }

    ghost predicate Valid()
      reads *
    {
      && |dbv| <= MAX_DB && maxCursors <= MAX_CURSORS
      && forall k :: 0 <= k < |dbv| && dbv[k] != null ==> dbv[k].dbh == k && dbv[k].Good()
    }

    /** The connection is in the table and in use. */
    ghost predicate Live(c: Connection)
      reads this, c
    {
      c.dbh < |dbv| && dbv[c.dbh] == c && c.link.used
    }

    /** `_sth2stp`: the statement a handle names, or null. */
    function Sth2stp(sth: int32): Statement?
      reads *
    {
      var dbh := DecodeDbh(sth);
      var i := DecodeSlot(sth);
      if dbh < |dbv| && dbv[dbh] != null && dbv[dbh].link.used && i < |dbv[dbh].stmtv| && dbv[dbh].stmtv[i].used
      then dbv[dbh].stmtv[i] else null
    }

    ghost function Owner(sth: int32): set<Connection>
      reads *
    {
      if Sth2stp(sth) == null then {} else {dbv[DecodeDbh(sth)]}
    }

    ghost function Target(sth: int32): set<Statement>
      reads *
    {
      if Sth2stp(sth) == null then {} else {Sth2stp(sth)}
    }

    /** The statement sits in its place in a live connection's table, and its `sth` says so. */
    ghost predicate InPlace(c: Connection, stp: Statement)
      reads this, c, stp
    {
      && |dbv| <= MAX_DB && Live(c)
      && stp.slot < |c.stmtv| <= MAX_CURSORS && c.stmtv[stp.slot] == stp && stp.sth == stp.slot
      && stp.View().Ok()
    }

    /** The handle encoded from such a statement names it while it is in use, and nothing after. */
    lemma HandleFinds(c: Connection, stp: Statement)
      requires InPlace(c, stp)
      ensures Sth2stp(Encode(stp.sth, c.dbh)) == if stp.used then stp else null
      ensures Owner(Encode(stp.sth, c.dbh)) <= {c} && Target(Encode(stp.sth, c.dbh)) <= {stp}
      ensures stp.used ==> dbv[DecodeDbh(Encode(stp.sth, c.dbh))] == c
    {
      RoundTrip(stp.sth, c.dbh);
    }

    /** In every state of the library, STH_INIT and every value down to -65536, hence every
        negative status code, names no statement. */
    lemma NegativeHandlesRejected(sth: int32)
      requires Valid() && -0x1_0000 <= sth < 0
      ensures Sth2stp(sth) == null
    {
      RejectedRange(sth);
    }

    /** `sqlo_close`. */
    method Close(sth: int32) returns (st: int)
      requires Sth2stp(sth) != null ==> Sth2stp(sth).View().Ok()
      modifies Owner(sth), Target(sth)
      ensures old(Sth2stp(sth)) == null ==> st == INVALID_STMT_HANDLE
      ensures old(Sth2stp(sth)) != null ==>
        var c := old(dbv[DecodeDbh(sth)]);
        var stp := old(Sth2stp(sth));
        && c.Cur(stp) == Cursors.Close(old(c.Cur(stp)), maxLongSize) && st == c.status
        && c.OnlyConversation()
    {
      var stp := Sth2stp(sth);
      if stp == null {
        return INVALID_STMT_HANDLE;
      }
      var c := dbv[DecodeDbh(sth)];
      st := c.CloseStatement(stp, maxLongSize);
    }

    /** ... which keeps the library valid. */
    method CloseHandle(sth: int32) returns (st: int)
      requires Valid()
      modifies Owner(sth), Target(sth)
      ensures Valid() && (old(Sth2stp(sth)) == null ==> st == INVALID_STMT_HANDLE)
    {
      hide Cursors.Close, Within;
      ghost var stp := Sth2stp(sth);
      if stp != null {
        Cursors.CloseOutcome(dbv[DecodeDbh(sth)].Cur(stp), maxLongSize);
        assert Connections.SlotOk(dbv[DecodeDbh(sth)].Slots()[DecodeSlot(sth)], DecodeSlot(sth));
      }
      st := Close(sth);
    }

    /** `sqlo_close` of a statement through its own encoded handle, as the error exits and the cleanup
        loops do it; harmless when the statement is no longer in use. */
    method CloseEncoded(c: Connection, stp: Statement) returns (st: int)
      requires InPlace(c, stp)
      modifies stp, c
      ensures InPlace(c, stp) && c.OnlyConversation()
      ensures var k := Cursors.CloseIfUsed(old(c.Cur(stp)), maxLongSize);
        && c.Cur(stp) == k.(status := c.status) && st == k.status
        && c.status == if old(stp.used) then st else old(c.status)
    {
      hide Cursors.Close, Cursors.Vacated;
      Cursors.CloseOutcome(c.Cur(stp), maxLongSize);
      HandleFinds(c, stp);
      st := Close(Encode(stp.sth, c.dbh));
    }

    /** `_sqlo_reopen` on a statement in use. Errors close it through its encoded handle. */
    method Reopen(c: Connection, stp: Statement, args: seq<string>) returns (st: int)
      requires InPlace(c, stp) && stp.used
      modifies stp, c
      ensures InPlace(c, stp) && c.OnlyConversation()
      ensures c.Cur(stp) == Cursors.Reopen(old(c.Cur(stp)), args, maxLongSize) && st == c.status
    {
      hide Cursors.BindArgv, Cursors.Launch, Cursors.Close;
      Cursors.ReopenKeeps(c.Cur(stp), args, maxLongSize);
      if |args| > 0 && !stp.stillExecuting {
        stp.BindpvReset();
        var bound := c.BindArgv(stp, args);
        if bound != SUCCESS {
          var closed := CloseEncoded(c, stp);
          return c.status;
        }
      }
      st := Launch(c, stp);
    }

    /** `_sqlo_reopen` after binding. */
    method Launch(c: Connection, stp: Statement) returns (st: int)
      requires InPlace(c, stp) && stp.used
      modifies stp, c
      ensures InPlace(c, stp) && c.OnlyConversation()
      ensures c.Cur(stp) == Cursors.Launch(old(c.Cur(stp)), maxLongSize) && st == c.status
    {
      if stp.stype != STMT_SELECT {
        stp.isOpen := c.status == SUCCESS;
      } else if stp.numExecutions == 0 {
        DefineFirst(c, stp);
      } else {
        ExecuteAgain(c, stp);
      }
      st := c.status;
    }

    /** ... for a query not executed yet. */
    method DefineFirst(c: Connection, stp: Statement)
      requires InPlace(c, stp) && stp.used && stp.stype == STMT_SELECT && stp.numExecutions == 0
      modifies stp, c
      ensures InPlace(c, stp) && c.OnlyConversation()
      ensures c.Cur(stp) == Cursors.Launch(old(c.Cur(stp)), maxLongSize)
    {
      hide Cursors.DefineOutput, Cursors.Close, Cursors.Vacated, Within;
      Cursors.DefineOutputFrame(c.Cur(stp), maxLongSize);
      Cursors.LaunchKeeps(c.Cur(stp), maxLongSize);
      var defined := c.DefineOutput(stp, maxLongSize);
      if c.status == STILL_EXECUTING {
        stp.stillExecuting := true;
      } else if c.status != SUCCESS {
        var status := c.status;
        var closed := CloseEncoded(c, stp);
        c.status := status;
        return;
      } else {
        stp.stillExecuting := false;
        if stp.numExecutions == 0 {
          stp.numExecutions := stp.numExecutions + 1;
          defined := c.DefineOutput(stp, maxLongSize);
        }
      }
      stp.isOpen := c.status == SUCCESS;
    }

    /** ... and for one executed before. */
    method ExecuteAgain(c: Connection, stp: Statement)
      requires InPlace(c, stp) && stp.used && stp.stype == STMT_SELECT && stp.numExecutions != 0
      modifies stp, c
      ensures InPlace(c, stp) && c.OnlyConversation()
      ensures c.Cur(stp) == Cursors.Launch(old(c.Cur(stp)), maxLongSize)
    {
      hide Cursors.Close;
      Cursors.LaunchKeeps(c.Cur(stp), maxLongSize);
      c.Execute(stp);
      if c.status == STILL_EXECUTING {
        stp.stillExecuting := true;
      } else if c.status != SUCCESS {
        var status := c.status;
        var closed := CloseEncoded(c, stp);
        closed := CloseEncoded(c, stp); // the common error exit closes once more
        c.status := status;
      } else {
        stp.stillExecuting := false;
      }
      stp.isOpen := c.status == SUCCESS;
    }

    // ------------------------------------------------------------ sqlo_open2

    /** The connection a handle names (CHECK_DBHANDLE), or null. */
    function Db(dbh: int): Connection?
      reads *
    {
      if 0 <= dbh < |dbv| && dbv[dbh] != null && dbv[dbh].link.used then dbv[dbh] else null
    }

    /** The connection and its statements. */
    ghost function Frame(dbh: int): set<object>
      reads *
    {
      if Db(dbh) == null then {} else {Db(dbh)} + (set s: object | s in Db(dbh).stmtv)
    }

    /** `sqlo_open2` resuming the query in slot `i`. */
    method Resume(c: Connection, i: nat, args: seq<string>)
      requires Valid() && Live(c) && i < |c.stmtv| && c.stmtv[i].used
      modifies c, c.stmtv[i]
      ensures c.OnlyConversation()
      ensures c.Table() == old(c.Table()).Put(i, Cursors.Reopen(old(c.Table()).At(i), args, maxLongSize))
    {
      hide Cursors.Reopen;
      ghost var slots := c.Slots();
      var stp := c.stmtv[i];
      assert Connections.SlotOk(slots[i], i);
      var st := Reopen(c, stp, args);
      assert c.Slots() == slots[i := stp.View()];
    }

    /** `sqlo_open2` on a new statement. `named` tells whether the caller's handle is set. */
    method OpenNew(c: Connection, stp: Statement, args: seq<string>) returns (ret: int, named: bool)
      requires InPlace(c, stp) && stp.used && c.status == SUCCESS
      modifies c, stp
      ensures c.OnlyConversation() && InPlace(c, stp)
      ensures CursorTables.Outcome(c.Cur(stp), ret, named) == CursorTables.OpenNew(old(c.Cur(stp)), args, maxLongSize)
    {
      hide Cursors.Reopen, Cursors.Close;
      ret := c.Prepare(stp);
      if ret != SUCCESS {
        CloseTwice(c, stp);
        return ret, false;
      }
      if stp.stype == STMT_DECLARE || stp.stype == STMT_BEGIN {
        CloseTwice(c, stp);
        return INVALID_STMT_TYPE, false;
      }
      if stp.stype == STMT_SELECT {
        ret := c.SetPrefetchRows(stp);
        if ret != SUCCESS {
          CloseTwice(c, stp);
          return ret, false;
        }
      }
      ret := Reopen(c, stp, args);
      named := ret == SUCCESS || ret == STILL_EXECUTING;
    }

    /** CHECK_OCI_STATUS with a call of `sqlo_close` as its argument, which it evaluates twice. */
    method CloseTwice(c: Connection, stp: Statement)
      requires InPlace(c, stp) && stp.used
      modifies c, stp
      ensures c.OnlyConversation() && InPlace(c, stp)
      ensures c.Cur(stp) == CursorTables.Abandon(old(c.Cur(stp)), 0, maxLongSize).k
    {
      hide Cursors.Close;
      var closed := CloseEncoded(c, stp);
      closed := CloseEncoded(c, stp);
      c.status := closed;
    }

    /** `sqlo_open2` when there is nothing to resume. */
    method OpenInFreeSlot(c: Connection, sth: int32, args: seq<string>) returns (ret: int, sth': int32)
      requires Valid() && Live(c)
      modifies c, c.stmtv
      ensures c.OnlyConversation()
      ensures CursorTables.Result(c.Table(), ret, sth')
        == CursorTables.OpenInFreeSlot(old(c.Table()), sth, c.dbh, args, maxLongSize)
    {
      hide CursorTables.OpenNew, CursorTables.FirstFree, CursorTables.NewStatement, Within, Cursors.Progress, State.Ok,
        Connections.LinkOk, Connections.SlotOk, Cursors.CloseIfUsed;
      ghost var slots := c.Slots();
      var stp;
      ghost var i;
      ret, stp, i := c.StmtNew();
      if stp == null {
        return ret, sth;
      }
      ret, sth' := OpenTaken(c, stp, sth, args);
      forall j | 0 <= j < |c.stmtv| && j != i
        ensures c.stmtv[j] != stp && c.Slots()[j] == slots[j]
      {
        assert c.stmtv[j].slot == j;
        assert c.stmtv[j] in c.stmtv;
      }
      assert c.Slots() == slots[i := stp.View()];
    }

    /** ... on the statement just taken, if it got its OCI handle. */
    method OpenTaken(c: Connection, stp: Statement, sth: int32, args: seq<string>) returns (ret: int, sth': int32)
      requires InPlace(c, stp) && (c.status == SUCCESS ==> stp.used)
      modifies c, stp
      ensures c.OnlyConversation()
      ensures var o := if old(c.status) == SUCCESS then CursorTables.OpenNew(old(c.Cur(stp)), args, maxLongSize)
                       else CursorTables.Outcome(old(c.Cur(stp)), old(c.status), false);
        c.Cur(stp) == o.k && ret == o.ret && sth' == if o.named then Encode(stp.slot, c.dbh) else sth
    {
      hide CursorTables.OpenNew;
      ret, sth' := c.status, sth;
      if ret == SUCCESS {
        var named;
        ret, named := OpenNew(c, stp, args);
        if named {
          sth' := Encode(stp.sth, c.dbh);
        }
      }
    }

    /** `sqlo_open2` on a live connection. */
    method OpenOn(c: Connection, sth: int32, args: seq<string>) returns (ret: int, sth': int32)
      requires Valid() && Live(c)
      modifies c, c.stmtv
      ensures c.OnlyConversation()
      ensures CursorTables.Result(c.Table(), ret, sth')
        == CursorTables.Open2(old(c.Table()), sth, c.dbh, args, maxLongSize)
    {
      hide Cursors.Reopen, CursorTables.OpenInFreeSlot, DecodeSlot, Within, State.Ok, Connections.SlotOk;
      var mode := c.oci.Now().mode;
      var nonBlocking := if mode == SUCCESS then c.nonBlocking else c.oci.Now().value == Replies.SQLO_OFF;
      c.status := mode;
      c.oci := c.oci.Rest();
      assert c.Slots() == old(c.Slots());
      if mode < 0 {
        return mode, sth;
      }
      if nonBlocking && sth != STH_INIT && DecodeSlot(sth) < |c.stmtv| {
        var stp := c.stmtv[DecodeSlot(sth)];
        if stp.used && !stp.isOpen && stp.stype == STMT_SELECT && stp.stillExecuting {
          Resume(c, DecodeSlot(sth), args);
          return c.status, sth;
        }
      }
      ret, sth' := OpenInFreeSlot(c, sth, args);
    }

    /** `sqlo_open2`. */
    method Open2(sth: int32, dbh: int, args: seq<string>) returns (ret: int, sth': int32)
      requires Valid()
      modifies Frame(dbh)
      ensures Valid()
      ensures old(Db(dbh)) == null ==> ret == INVALID_DB_HANDLE && sth' == sth
      ensures old(Db(dbh)) != null ==>
        var c := old(Db(dbh));
        && c.OnlyConversation()
        && CursorTables.Result(c.Table(), ret, sth') == CursorTables.Open2(old(c.Table()), sth, dbh, args, maxLongSize)
    {
      hide CursorTables.Open2, Within, Connections.SlotOk, State.Ok;
      var c := Db(dbh);
      if c == null {
        return INVALID_DB_HANDLE, sth;
      }
      Connections.OpenKeeps(c.Table(), sth, dbh, args, maxLongSize);
      ret, sth' := OpenOn(c, sth, args);
      SlotsGood(c);
    }

    /** Well slots in the view are well statements. */
    lemma SlotsGood(c: Connection)
      requires |c.stmtv| <= MAX_CURSORS && forall i :: 0 <= i < |c.stmtv| ==>
        c.stmtv[i].owner == c && c.stmtv[i].slot == i
      requires c.Table().Ok() && Connections.SlotsOk(c.Slots()) && c.link.used && Connections.LinkOk(c.link)
      ensures c.Good()
    {
      forall i | 0 <= i < |c.stmtv|
        ensures c.stmtv[i].View().Ok()
      {
        assert c.Slots()[i].Ok();
      }
    }

    // -------------------------------------------------------------- sqlo_run

    /** `sqlo_fetch`. */
    method Fetch(sth: int32) returns (st: int)
      requires Sth2stp(sth) != null ==> Sth2stp(sth).View().Ok()
      modifies Owner(sth), Target(sth)
      ensures old(Sth2stp(sth)) == null ==> st == INVALID_STMT_HANDLE
      ensures old(Sth2stp(sth)) != null ==>
        var c := old(dbv[DecodeDbh(sth)]);
        var stp := old(Sth2stp(sth));
        && c.Cur(stp) == Cursors.Fetch(old(c.Cur(stp))) && st == c.status
        && c.OnlyConversation() && Sth2stp(sth) == stp
    {
      var stp := Sth2stp(sth);
      if stp == null {
        return INVALID_STMT_HANDLE;
      }
      var c := dbv[DecodeDbh(sth)];
      if stp.stype != STMT_SELECT {
        c.Execute(stp);
        if c.status != SUCCESS {
          if c.status == STILL_EXECUTING {
            stp.stillExecuting := true;
          }
        } else {
          stp.stillExecuting := false;
        }
      } else {
        c.status := c.oci.Now().fetch;
        c.oci := c.oci.Rest();
        if c.status != SUCCESS && c.status != NO_DATA {
          if c.status == STILL_EXECUTING {
            stp.stillExecuting := true;
          }
        } else {
          stp.stillExecuting := false;
        }
      }
      st := c.status;
    }

    /** `sqlo_bind_by_name` on a parameter that is not a cursor. */
    method BindByName(sth: int32, isArray: bool) returns (st: int)
      requires Sth2stp(sth) != null ==> Sth2stp(sth).View().Ok()
      modifies Owner(sth), Target(sth)
      ensures old(Sth2stp(sth)) == null ==> st == INVALID_STMT_HANDLE
      ensures old(Sth2stp(sth)) != null ==>
        var c := old(dbv[DecodeDbh(sth)]);
        var stp := old(Sth2stp(sth));
        && c.Cur(stp) == Cursors.BindByName(old(c.Cur(stp)), isArray) && st == c.status
        && c.OnlyConversation() && Sth2stp(sth) == stp
    {
      hide Cursors.BindByName;
      var stp := Sth2stp(sth);
      if stp == null {
        return INVALID_STMT_HANDLE;
      }
      var c := dbv[DecodeDbh(sth)];
      st := c.BindByName(stp, isArray);
    }

    /** `sqlo_prows`. */
    method Prows(sth: int32) returns (rows: int)
      requires Sth2stp(sth) != null ==> Sth2stp(sth).View().Ok()
      modifies Owner(sth)
      ensures old(Sth2stp(sth)) == null ==> rows == INVALID_STMT_HANDLE
      ensures old(Sth2stp(sth)) != null ==>
        var c := old(dbv[DecodeDbh(sth)]);
        var stp := old(Sth2stp(sth));
        && (c.Cur(stp), rows) == CursorTables.Rows(old(c.Cur(stp)))
        && c.OnlyConversation() && Sth2stp(sth) == stp
    {
      var stp := Sth2stp(sth);
      if stp == null || !stp.isOpen {
        return INVALID_STMT_HANDLE;
      }
      var c := dbv[DecodeDbh(sth)];
      var t := c.oci.Now();
      c.status := t.local;
      c.oci := c.oci.Rest();
      rows := if t.local == SUCCESS then t.value else t.local;
    }

    /** The fetching loop of `sqlo_run`. */
    method FetchOut(sth: int32) returns (ret: int)
      requires Sth2stp(sth) != null && Sth2stp(sth).View().Ok()
      modifies Owner(sth), Target(sth)
      ensures var c := old(dbv[DecodeDbh(sth)]);
        var stp := old(Sth2stp(sth));
        && c.Cur(stp) == CursorTables.PollFetch(old(c.Cur(stp))) && ret == c.status
        && c.OnlyConversation() && Sth2stp(sth) == stp
    {
      hide Cursors.Fetch;
      ghost var stp := Sth2stp(sth);
      ghost var c := dbv[DecodeDbh(sth)];
      ret := Fetch(sth);
      while ret == STILL_EXECUTING
        invariant Sth2stp(sth) == stp && dbv[DecodeDbh(sth)] == c && stp.View().Ok() && ret == c.status
          && c.OnlyConversation()
        invariant CursorTables.PollFetch(old(c.Cur(stp)))
          == if ret == STILL_EXECUTING then CursorTables.PollFetch(c.Cur(stp)) else c.Cur(stp)
        decreases ret == STILL_EXECUTING, |c.oci.script|
      {
        ret := Fetch(sth);
      }
    }

    /** The closing loop of `sqlo_run`. */
    method CloseOut(sth: int32)
      requires Sth2stp(sth) != null && Sth2stp(sth).View().Ok()
      modifies Owner(sth), Target(sth)
      ensures var c := old(dbv[DecodeDbh(sth)]);
        var stp := old(Sth2stp(sth));
        && c.Cur(stp) == CursorTables.PollClose(old(c.Cur(stp)), maxLongSize)
        && c.OnlyConversation()
    {
      hide Cursors.Close;
      ghost var stp := Sth2stp(sth);
      ghost var c := dbv[DecodeDbh(sth)];
      Cursors.CloseOutcome(c.Cur(stp), maxLongSize);
      var status := Close(sth);
      while status == STILL_EXECUTING
        invariant status == STILL_EXECUTING ==> Sth2stp(sth) == stp && dbv[DecodeDbh(sth)] == c
        invariant stp.View().Ok() && status == c.status && c.OnlyConversation()
        invariant CursorTables.PollClose(old(c.Cur(stp)), maxLongSize)
                  == if status == STILL_EXECUTING then CursorTables.PollClose(c.Cur(stp), maxLongSize) else c.Cur(stp)
        decreases status == STILL_EXECUTING, |c.oci.script|
      {
        Cursors.CloseOutcome(c.Cur(stp), maxLongSize);
        status := Close(sth);
      }
    }

    /** The second half of `sqlo_run`: fetch, count, close, polling each. */
    method RunOpened(sth: int32) returns (ret: int)
      requires Sth2stp(sth) != null ==> Sth2stp(sth).View().Ok()
      modifies Owner(sth), Target(sth)
      ensures old(Sth2stp(sth)) == null ==> ret == INVALID_STMT_HANDLE
      ensures old(Sth2stp(sth)) != null ==>
        var c := old(dbv[DecodeDbh(sth)]);
        var stp := old(Sth2stp(sth));
        && (c.Cur(stp), ret) == CursorTables.Finish(old(c.Cur(stp)), maxLongSize)
        && c.OnlyConversation()
    {
      hide CursorTables.PollFetch, CursorTables.PollClose;
      var stp := Sth2stp(sth);
      if stp == null {
        // fetching and closing both reject the handle
        ret := Fetch(sth);
        var rejected := Close(sth);
        return ret;
      }
      ret := FetchOut(sth);
      if 0 <= ret {
        ret := Prows(sth);
      }
      CloseOut(sth);
    }

    /** `sqlo_run`. */
    method Run(dbh: int, args: seq<string>) returns (ret: int)
      requires Valid()
      modifies Frame(dbh)
      ensures Valid()
      ensures old(Db(dbh)) == null ==> ret == INVALID_DB_HANDLE
      ensures old(Db(dbh)) != null ==>
        var c := old(Db(dbh));
        && c.OnlyConversation()
        && (c.Table(), ret) == CursorTables.RunStatement(old(c.Table()), dbh, args, maxLongSize)
    {
      hide CursorTables.RunStatement, Connections.SlotOk, State.Ok;
      var c := Db(dbh);
      if c == null {
        return INVALID_DB_HANDLE;
      }
      Connections.RunKeeps(c.Table(), dbh, args, maxLongSize);
      ret := RunOn(c, args);
      SlotsGood(c);
    }

    /** `sqlo_run` on a live connection. */
    method RunOn(c: Connection, args: seq<string>) returns (ret: int)
      requires Valid() && Live(c)
      modifies c, c.stmtv
      ensures c.OnlyConversation()
      ensures (c.Table(), ret) == CursorTables.RunStatement(old(c.Table()), c.dbh, args, maxLongSize)
    {
      hide CursorTables.PollOpen, CursorTables.Finish, DecodeDbh, DecodeSlot;
      CursorTables.PollOpenHandle(c.Table(), STH_INIT, c.dbh, args, maxLongSize);
      var sth;
      ret, sth := OpenOut(c, args);
      if ret < 0 {
        return;
      }
      NegativeHandlesRejected(STH_INIT);
      RejectedRange(STH_INIT);
      ret := RunHandle(c, sth);
    }

    /** ... once the handle is known to be this connection's, or none. */
    method RunHandle(c: Connection, sth: int32) returns (ret: int)
      requires Valid() && Live(c) && (Sth2stp(sth) == null || DecodeDbh(sth) == c.dbh)
      modifies c, c.stmtv
      ensures c.OnlyConversation()
      ensures !old(CursorTables.Names(c.Table(), c.dbh, sth)) ==>
        ret == INVALID_STMT_HANDLE && c.Table() == old(c.Table())
      ensures old(CursorTables.Names(c.Table(), c.dbh, sth)) ==>
        var f := CursorTables.Finish(old(c.Table()).At(DecodeSlot(sth)), maxLongSize);
        c.Table() == old(c.Table()).Put(DecodeSlot(sth), f.0) && ret == f.1
    {
      hide CursorTables.Finish, DecodeDbh, DecodeSlot;
      ghost var slots := c.Slots();
      ghost var stp := Sth2stp(sth);
      ret := RunOpened(sth);
      if stp != null {
        assert c.Slots() == slots[DecodeSlot(sth) := stp.View()];
      } else {
        assert c.Slots() == slots;
      }
    }

    /** The opening loop of `sqlo_run`. */
    method OpenOut(c: Connection, args: seq<string>) returns (ret: int, sth: int32)
      requires Valid() && Live(c)
      modifies c, c.stmtv
      ensures Valid() && c.OnlyConversation()
      ensures CursorTables.Result(c.Table(), ret, sth)
        == CursorTables.PollOpen(old(c.Table()), STH_INIT, c.dbh, args, maxLongSize)
    {
      hide CursorTables.Open2, Within, Connections.SlotOk, Connections.LinkOk, State.Ok;
      ret, sth := Open2(STH_INIT, c.dbh, args);
      while ret == STILL_EXECUTING
        invariant Valid() && Live(c) && c.OnlyConversation()
        invariant CursorTables.PollOpen(old(c.Table()), STH_INIT, c.dbh, args, maxLongSize)
                  == if ret == STILL_EXECUTING then CursorTables.PollOpen(c.Table(), sth, c.dbh, args, maxLongSize)
                     else CursorTables.Result(c.Table(), ret, sth)
        decreases ret == STILL_EXECUTING, |c.oci.script|
      {
        ret, sth := Open2(sth, c.dbh, args);
      }
    }

    // ------------------------------------------------------------ connections

    /** The slots of `_dbv` in use. */
    ghost function UsedDbs(): set<nat>
      reads *
    {
      set k: nat | k < |dbv| && dbv[k] != null && dbv[k].link.used
    }

    /** The connections not in use. */
    ghost function Unused(): set<object>
      reads *
    {
      set d: Connection | d in dbv && !d.link.used
    }

    /** ... and their statements. */
    ghost function Spare(): set<object>
      reads *
    {
      Unused() + (set d: Connection, s: Statement | d in dbv && !d.link.used && s in d.stmtv :: s)
    }

    /** No slot is left for a new connection. */
    ghost predicate Full()
      reads *
    {
      forall k :: 0 <= k < |dbv| ==> dbv[k] != null && dbv[k].link.used
    }

    /** `_find_free_dbv_entry`: the first allocated entry not in use, else the first empty one. */
    method FindFreeDbvEntry() returns (ok: bool, idx: nat)
      ensures ok <==> exists k :: 0 <= k < |dbv| && (dbv[k] == null || !dbv[k].link.used)
      ensures ok ==> idx < |dbv| && (dbv[idx] == null || !dbv[idx].link.used)
      ensures ok && dbv[idx] != null ==> forall k :: 0 <= k < idx ==> dbv[k] == null || dbv[k].link.used
      ensures ok && dbv[idx] == null ==>
        (forall k :: 0 <= k < |dbv| && dbv[k] != null ==> dbv[k].link.used) && null !in dbv[..idx]
    {
      idx := 0;
      var firstNull: int := -1;
      var foundUnused := false;
      var k := 0;
      while k < |dbv| && !foundUnused
        invariant k <= |dbv| && (foundUnused ==> idx < k && dbv[idx] != null && !dbv[idx].link.used)
        invariant forall j :: 0 <= j < (if foundUnused then idx else k) ==> dbv[j] == null || dbv[j].link.used
        invariant firstNull == -1 ==> forall j :: 0 <= j < (if foundUnused then idx else k) ==> dbv[j] != null
        invariant firstNull != -1 ==> 0 <= firstNull < k && dbv[firstNull] == null && null !in dbv[..firstNull]
      {
        if dbv[k] != null && !dbv[k].link.used {
          idx := k;
          foundUnused := true;
        } else if firstNull == -1 && dbv[k] == null {
          firstNull := k;
        }
        k := k + 1;
      }
      ok := foundUnused || firstNull >= 0;
      if ok && !foundUnused {
        idx := firstNull;
      }
    }

    /** `_stmtv_alloc` on a connection that has no statements yet. */
    method StmtvAlloc(c: Connection)
      requires c.stmtv == [] && maxCursors <= MAX_CURSORS
      modifies c`stmtv
      ensures |c.stmtv| == maxCursors && c.Valid() && fresh(c.stmtv)
      ensures forall i :: 0 <= i < |c.stmtv| ==> c.Slots()[i] == ZERO
    {
      var stmtv: seq<Statement> := [];
      while |stmtv| < maxCursors
        invariant |stmtv| <= maxCursors && fresh(stmtv)
        invariant forall i :: 0 <= i < |stmtv| ==> stmtv[i].owner == c && stmtv[i].slot == i && stmtv[i].View() == ZERO
      {
        var stp := new Statement(c, |stmtv|);
        stmtv := stmtv + [stp];
      }
      c.stmtv := stmtv;
    }

    /** `_db_alloc` and what follows it in `_db_add`, for an empty entry. */
    method AllocateAt(idx: nat, oci: Oracle) returns (c: Connection)
      requires Valid() && idx < |dbv| && dbv[idx] == null
      modifies this`dbv
      ensures Valid() && dbv == old(dbv)[idx := c] && c.dbh == idx && Live(c)
      ensures fresh(c) && fresh(c.stmtv) && Connections.Picked(c.View()) && c.oci == oci
      ensures c.link == Connections.ZERO_LINK.(used := true)
    {
      hide Connections.Picked;
      c := NewConnection(idx, oci);
      dbv := dbv[idx := c];
    }

    /** A zeroed connection, marked used, with its statements. */
    method NewConnection(idx: nat, oci: Oracle) returns (c: Connection)
      requires maxCursors <= MAX_CURSORS
      ensures fresh(c) && fresh(c.stmtv) && c.dbh == idx && c.Good() && Connections.Picked(c.View())
      ensures c.oci == oci && c.link == Connections.ZERO_LINK.(used := true)
    {
      c := new Connection(idx, oci);
      c.link := c.link.(used := true);
      StmtvAlloc(c);
    }

    /** `_db_add` on an allocated entry not in use. */
    method ReuseAt(c: Connection)
      requires Valid() && c in dbv && !c.link.used
      modifies c
      ensures Valid() && Live(c) && Connections.Picked(c.View())
      ensures c.link == old(c.link).(used := true) && c.oci == old(c.oci)
      ensures c.stmtv == old(c.stmtv) || (old(c.stmtv) == [] && fresh(c.stmtv))
    {
      ghost var k :| 0 <= k < |dbv| && dbv[k] == c;
      c.link := c.link.(used := true);
      if c.stmtv == [] {
        StmtvAlloc(c);
      }
    }

    /** `_db_add`: pick a slot, allocate it if it is empty, mark it used, give it its statements.
        `oci` is the environment of a newly allocated connection. */
    method DbAdd(oci: Oracle) returns (c: Connection?)
      requires Valid()
      modifies this`dbv, Unused()
      ensures Valid()
      ensures c == null <==> old(Full())
      ensures c == null ==> dbv == old(dbv)
      ensures c != null ==>
        && Live(c) && Connections.Picked(c.View()) && c.dbh < |old(dbv)| && dbv == old(dbv)[c.dbh := c]
        && c.dbh !in old(UsedDbs()) && UsedDbs() == old(UsedDbs()) + {c.dbh}
        && (fresh(c) || c in old(Unused())) && (forall s <- c.stmtv :: fresh(s) || s in old(Spare()))
        && (forall d <- old(Unused()) :: d != c ==> unchanged(d))
        && (old(dbv)[c.dbh] == null ==> c.link == Connections.ZERO_LINK.(used := true) && c.oci == oci)
        && (old(dbv)[c.dbh] != null ==>
              c == old(dbv)[c.dbh] && c.link == old(c.link).(used := true) && c.oci == old(c.oci)
                && (old(c.stmtv) != [] ==> c.Slots() == old(c.Slots())))
    {
      var ok, idx := FindFreeDbvEntry();
      if !ok {
        return null;
      }
      if dbv[idx] == null {
        c := AllocateAt(idx, oci);
      } else {
        c := dbv[idx];
        ReuseAt(c);
      }
    }

    // -------------------------------------------------------- connection calls

    /** A connection showing what satisfies the lifecycle invariant is good. */
    lemma InvGood(c: Connection, v: Connections.Conn)
      requires |c.stmtv| <= MAX_CURSORS && forall i :: 0 <= i < |c.stmtv| ==>
        c.stmtv[i].owner == c && c.stmtv[i].slot == i
      requires c.Shows(v) && Connections.Inv(v)
      ensures c.Good()
    {
      forall i | 0 <= i < |c.stmtv|
        ensures c.stmtv[i].View().Ok()
      {
        assert c.Slots()[i].Ok();
      }
    }

    lemma GoodInv(c: Connection)
      requires c.Good()
      ensures Connections.Inv(c.View())
    {
    }

    /** The loop of `_close_all_db_cursors`: close each statement in use, then free its arrays. */
    method CloseAllDbCursors(c: Connection)
      requires Valid() && Live(c)
      modifies c, c.stmtv
      ensures c.OnlyConversation() && c.Valid()
      ensures c.Table() == CursorTables.CloseAll(old(c.Table()), 0, maxLongSize)
    {
      hide CursorTables.CloseAll, Connections.SlotOk, State.Ok;
      ghost var tb := c.Table();
      var i := 0;
      while i < |c.stmtv|
        invariant i <= |c.stmtv| && c.OnlyConversation() && c.Valid() && Live(c) && |dbv| <= MAX_DB
          && Connections.SlotsOk(c.Slots())
        invariant CursorTables.CloseAll(tb, 0, maxLongSize) == CursorTables.CloseAll(c.Table(), i, maxLongSize)
      {
        hide *;
        EmptyIfUsed(c, i);
        i := i + 1;
      }
      CursorTables.ClosingEnds(c.Table(), maxLongSize);
    }

    method EmptyIfUsed(c: Connection, i: nat)
      requires |dbv| <= MAX_DB && Live(c) && c.Valid() && Connections.SlotsOk(c.Slots()) && i < |c.stmtv|
      modifies c, c.stmtv[i]
      ensures c.OnlyConversation() && c.Valid() && Connections.SlotsOk(c.Slots())
      ensures CursorTables.CloseAll(c.Table(), i + 1, maxLongSize)
        == CursorTables.CloseAll(old(c.Table()), i, maxLongSize)
    {
      hide Cursors.Close, Within, Connections.SlotOk;
      if c.stmtv[i].used {
        CloseAndEmpty(c, i);
      }
    }

    /** ... for the statement in slot `i`. */
    method CloseAndEmpty(c: Connection, i: nat)
      requires |dbv| <= MAX_DB && Live(c) && c.Valid() && Connections.SlotsOk(c.Slots()) && i < |c.stmtv|
        && c.stmtv[i].used
      modifies c, c.stmtv[i]
      ensures c.OnlyConversation() && c.Valid() && Connections.SlotsOk(c.Slots())
      ensures var k := Cursors.Close(old(c.Table()).At(i), maxLongSize);
        c.Table() == old(c.Table()).Put(i, k.(s := CursorTables.Emptied(k.s)))
    {
      hide Cursors.Close, CursorTables.Emptied;
      ghost var slots := c.Slots();
      assert Connections.SlotOk(slots[i], i);
      CloseThenFree(c, c.stmtv[i]);
      assert c.Slots() == slots[i := c.stmtv[i].View()];
    }

    method CloseThenFree(c: Connection, stp: Statement)
      requires InPlace(c, stp) && stp.used
      modifies c, stp
      ensures c.OnlyConversation() && stp.View().Ok() && Connections.SlotOk(stp.View(), stp.slot)
      ensures var k := Cursors.Close(old(c.Cur(stp)), maxLongSize);
        c.Cur(stp) == k.(s := CursorTables.Emptied(k.s))
    {
      hide Cursors.Close;
      Cursors.CloseOutcome(c.Cur(stp), maxLongSize);
      var closed := CloseEncoded(c, stp);
      stp.DeallocBindp();
      stp.DeallocDefinep();
    }

    /** `sqlo_session_begin`. Without a user name or a password, or with a user name that has a separator in it and
        cannot be split, nothing is asked of the server. */
    method SessionBegin(dbh: int, username: Option<string>, password: Option<string>, sid: Option<string>)
      returns (st: int)
      requires Valid() && (username.Some? ==> NUL !in username.value) && (sid.Some? ==> NUL !in sid.value)
      modifies Frame(dbh)
      ensures Valid()
      ensures old(Db(dbh)) == null ==> st == INVALID_DB_HANDLE
      ensures old(Db(dbh)) != null ==>
        var c := old(Db(dbh));
        var ready := old(c.link).attached && !old(c.link).session;
        var r := if ready && !Credentials(username, password, sid) then (old(c.View()), ERROR)
                 else Connections.SessionBegin(old(c.View()));
        c.stmtv == old(c.stmtv) && c.Shows(r.0) && st == r.1
    {
      hide Split, Connections.BeginWire, Connections.SlotsOk;
      var c := Db(dbh);
      if c == null {
        return INVALID_DB_HANDLE;
      }
      if !c.link.attached || c.link.session {
        Connections.BeginsNothing(c.View());
        return INVALID_DB_HANDLE;
      }
      if username.None? || password.None? {
        return ERROR;
      }
      if '/' in username.value {
        var ok, parts := SplitName(username.value, sid);
        if !ok {
          return ERROR;
        }
      }
      st := BeginOn(c);
    }

    /** A user name and a password can be had from the arguments. */
    ghost predicate Credentials(username: Option<string>, password: Option<string>, sid: Option<string>) {
      username.Some? && password.Some? && ('/' in username.value ==> Split(username.value, sid, MAX_BUFLEN).Some?)
    }

    /** ... with the credentials in place. */
    method BeginOn(c: Connection) returns (st: int)
      requires Valid() && Live(c)
      modifies c
      ensures Valid() && c.stmtv == old(c.stmtv) && c.dbh < |dbv| && dbv[c.dbh] == c
      ensures var r := Connections.SessionBegin(old(c.View())); c.Shows(r.0) && st == r.1
    {
      hide Connections.BeginWire;
      GoodInv(c);
      Connections.BeginKeepsInv(c.View());
      ghost var r := Connections.SessionBegin(c.View()).0;
      st := c.BeginSession();
      assert c.Slots() == old(c.Slots());
      InvGood(c, r);
    }

    /** `sqlo_session_end`. */
    method SessionEnd(dbh: int) returns (st: int)
      requires Valid()
      modifies Frame(dbh)
      ensures Valid()
      ensures old(Db(dbh)) == null ==> st == INVALID_DB_HANDLE
      ensures old(Db(dbh)) != null ==>
        var c := old(Db(dbh));
        var r := Connections.SessionEnd(old(c.View()), maxLongSize);
        c.stmtv == old(c.stmtv) && c.Shows(r.0) && st == r.1
    {
      hide Connections.SessionEnd, Connections.SlotOk, State.Ok, State.Idle;
      var c := Db(dbh);
      if c == null {
        return INVALID_DB_HANDLE;
      }
      if !c.link.session {
        Connections.EndsNothing(c.View(), maxLongSize);
        return INVALID_DB_HANDLE;
      }
      GoodInv(c);
      Connections.EndOutcome(c.View(), maxLongSize);
      ghost var r := Connections.SessionEnd(c.View(), maxLongSize).0;
      st := EndSession(c);
      InvGood(c, r);
    }

    method EndSession(c: Connection) returns (st: int)
      requires Valid() && Live(c) && c.link.session
      modifies c, c.stmtv
      ensures var r := Connections.SessionEnd(old(c.View()), maxLongSize);
        c.stmtv == old(c.stmtv) && c.Shows(r.0) && st == r.1
    {
      hide CursorTables.CloseAll, Connections.PollLink, Connections.SlotOk, Connections.LinkOk, State.Ok, State.Idle,
        Within;
      CloseAllDbCursors(c);
      ghost var slots := c.Slots();
      c.EndLoop();
      c.link := c.link.(session := false);
      assert c.Slots() == slots;
      st := c.status;
    }

    /** `sqlo_server_detach`. */
    method ServerDetach(dbh: int) returns (st: int)
      requires Valid()
      modifies Frame(dbh)
      ensures Valid()
      ensures old(Db(dbh)) == null ==> st == INVALID_DB_HANDLE
      ensures old(Db(dbh)) != null ==>
        var c := old(Db(dbh));
        var r := Connections.Detach(old(c.View()), maxLongSize);
        c.stmtv == old(c.stmtv) && c.Shows(r.0) && st == r.1
    {
      hide Connections.SessionEnd, Connections.DbRelease;
      var c := Db(dbh);
      if c == null || !c.link.attached {
        return INVALID_DB_HANDLE;
      }
      st := SUCCESS;
      if c.link.session {
        GoodInv(c);
        Connections.EndOutcome(c.View(), maxLongSize);
        ghost var v := Connections.SessionEnd(c.View(), maxLongSize).0;
        st := SessionEnd(dbh);
        c.Seen(v);
        if st != SUCCESS {
          return;
        }
      }
      DetachServer(c);
      st := c.status;
    }

    /** OCIServerDetach, whose reply does not matter, and `_db_release`. */
    method DetachServer(c: Connection)
      requires Valid() && Live(c)
      modifies c, c.stmtv
      ensures Valid() && c.stmtv == old(c.stmtv) && c.Shows(Connections.DbRelease(Connections.AskServer(old(c.View()))))
    {
      hide Connections.DbRelease;
      ghost var v := Connections.AskServer(c.View());
      c.status := c.oci.Now().link;
      c.oci := c.oci.Rest();
      assert c.Slots() == old(c.Slots());
      c.Seen(v);
      ReleaseDb(c);
    }

    /** `_db_release` keeps the library valid. */
    method ReleaseDb(c: Connection)
      requires Valid() && Live(c)
      modifies c, c.stmtv
      ensures Valid() && c.stmtv == old(c.stmtv) && c.Shows(Connections.DbRelease(old(c.View())))
    {
      hide Connections.DbRelease;
      GoodInv(c);
      ghost var r := Connections.DbRelease(c.View());
      Connections.ReleaseOutcome(c.View());
      c.Release();
      InvGood(c, r);
    }

    /** `sqlo_server_free`. */
    method ServerFree(dbh: int) returns (st: int)
      requires Valid()
      modifies Frame(dbh)
      ensures Valid()
      ensures old(Db(dbh)) == null ==> st == INVALID_DB_HANDLE
      ensures old(Db(dbh)) != null ==>
        var c := old(Db(dbh));
        var r := Connections.Free(old(c.View()));
        c.stmtv == old(c.stmtv) && c.Shows(r.0) && st == r.1
    {
      hide Connections.DbRelease;
      var c := Db(dbh);
      if c == null {
        return INVALID_DB_HANDLE;
      }
      if c.link.attached {
        DetachServer(c);
      } else {
        ReleaseDb(c);
      }
      st := c.status;
    }

    /** `sqlo_finish`. */
    method Finish(dbh: int) returns (st: int)
      requires Valid()
      modifies Frame(dbh)
      ensures Valid()
      ensures old(Db(dbh)) == null ==> st == INVALID_DB_HANDLE
      ensures old(Db(dbh)) != null ==>
        var c := old(Db(dbh));
        var r := Connections.FinishConn(old(c.View()), maxLongSize);
        c.stmtv == old(c.stmtv) && c.Shows(r.0) && st == r.1
    {
      hide Connections.SessionEnd, Connections.Detach, Connections.Free, Connections.SlotsOk, Connections.LinkOk;
      var c := Db(dbh);
      if c == null {
        return INVALID_DB_HANDLE;
      }
      st := SUCCESS;
      if c.link.session {
        st := EndAndDetach(dbh);
      }
    }

    /** ... when there is a session: end it and detach, and free everything when that fails. */
    method EndAndDetach(dbh: int) returns (st: int)
      requires Valid() && Db(dbh) != null && Db(dbh).link.session
      modifies Frame(dbh)
      ensures Valid()
      ensures var c := old(Db(dbh));
        var r := Connections.FinishConn(old(c.View()), maxLongSize);
        c.stmtv == old(c.stmtv) && c.Shows(r.0) && st == r.1
    {
      hide Connections.SessionEnd, Connections.Detach, Connections.Free, Connections.SlotsOk;
      ghost var c := Db(dbh);
      GoodInv(c);
      ghost var e := Connections.SessionEnd(c.View(), maxLongSize).0;
      Connections.EndOutcome(c.View(), maxLongSize);
      Connections.DetachOutcome(e, maxLongSize);
      ghost var d := Connections.Detach(e, maxLongSize).0;
      st := SessionEnd(dbh);
      c.Seen(e);
      if st == SUCCESS {
        st := ServerDetach(dbh);
        c.Seen(d);
      }
      if st != SUCCESS {
        var freed := ServerFree(dbh);
      }
    }

    /** `sqlo_exec`. */
    method Exec(dbh: int) returns (ret: int)
      requires Valid()
      modifies Frame(dbh)
      ensures Valid()
      ensures old(Db(dbh)) == null ==> ret == INVALID_DB_HANDLE
      ensures old(Db(dbh)) != null ==>
        var c := old(Db(dbh));
        var r := Connections.Exec(old(c.View()));
        c.stmtv == old(c.stmtv) && c.Shows(r.0) && ret == r.1
    {
      hide Connections.ExecWire;
      var c := Db(dbh);
      if c == null {
        return INVALID_DB_HANDLE;
      }
      GoodInv(c);
      Connections.ExecFrame(c.View());
      ghost var r := Connections.Exec(c.View()).0;
      ret := c.Exec();
      assert c.Slots() == old(c.Slots());
      InvGood(c, r);
    }

    // ------------------------------------------------------------------ break

    /** The loop of `_close_all_executing_cursors`. */
    method CloseAllExecutingCursors(c: Connection)
      requires Valid() && Live(c)
      modifies c, c.stmtv
      ensures c.OnlyConversation() && c.Valid()
      ensures c.Table() == CursorTables.CloseExecuting(old(c.Table()), 0, maxLongSize)
    {
      hide CursorTables.CloseExecuting, Connections.SlotOk, State.Ok;
      ghost var tb := c.Table();
      var i := 0;
      while i < |c.stmtv|
        invariant i <= |c.stmtv| && c.OnlyConversation() && c.Valid() && Live(c) && |dbv| <= MAX_DB
          && Connections.SlotsOk(c.Slots())
        invariant CursorTables.CloseExecuting(tb, 0, maxLongSize)
          == CursorTables.CloseExecuting(c.Table(), i, maxLongSize)
      {
        hide *;
        CloseIfExecuting(c, i);
        i := i + 1;
      }
      CursorTables.ClosingEnds(c.Table(), maxLongSize);
    }

    method CloseIfExecuting(c: Connection, i: nat)
      requires |dbv| <= MAX_DB && Live(c) && c.Valid() && Connections.SlotsOk(c.Slots()) && i < |c.stmtv|
      modifies c, c.stmtv[i]
      ensures c.OnlyConversation() && c.Valid() && Connections.SlotsOk(c.Slots())
      ensures CursorTables.CloseExecuting(c.Table(), i + 1, maxLongSize)
        == CursorTables.CloseExecuting(old(c.Table()), i, maxLongSize)
    {
      hide Cursors.Close, Within, Connections.SlotOk;
      var stp := c.stmtv[i];
      if stp.used && stp.stillExecuting {
        CloseSlot(c, i);
      }
    }

    /** ... for the statement in slot `i`. */
    method CloseSlot(c: Connection, i: nat)
      requires |dbv| <= MAX_DB && Live(c) && c.Valid() && Connections.SlotsOk(c.Slots()) && i < |c.stmtv|
        && c.stmtv[i].used
      modifies c, c.stmtv[i]
      ensures c.OnlyConversation() && c.Valid() && Connections.SlotsOk(c.Slots())
      ensures c.Table() == old(c.Table()).Put(i, Cursors.Close(old(c.Table()).At(i), maxLongSize))
    {
      hide Cursors.Close;
      ghost var slots := c.Slots();
      assert Connections.SlotOk(slots[i], i);
      Cursors.CloseOutcome(c.Cur(c.stmtv[i]), maxLongSize);
      var closed := CloseEncoded(c, c.stmtv[i]);
      assert c.Slots() == slots[i := c.stmtv[i].View()];
    }

    /** `sqlo_break`. */
    method Break(dbh: int) returns (st: int)
      requires Valid()
      modifies Frame(dbh)
      ensures Valid()
      ensures old(Db(dbh)) == null ==> st == INVALID_DB_HANDLE
      ensures old(Db(dbh)) != null ==>
        var c := old(Db(dbh));
        var r := Connections.Break(old(c.View()), maxLongSize);
        c.stmtv == old(c.stmtv) && c.Shows(r.0) && st == r.1
    {
      hide Connections.Break;
      var c := Db(dbh);
      if c == null {
        return INVALID_DB_HANDLE;
      }
      GoodInv(c);
      Connections.BreakOutcome(c.View(), maxLongSize);
      ghost var r := Connections.Break(c.View(), maxLongSize).0;
      st := BreakOn(c);
      InvGood(c, r);
    }

    method BreakOn(c: Connection) returns (st: int)
      requires Valid() && Live(c)
      modifies c, c.stmtv
      ensures var r := Connections.Break(old(c.View()), maxLongSize);
        c.stmtv == old(c.stmtv) && c.Shows(r.0) && st == r.1
    {
      hide Connections.BreakServer, Within;
      c.status := c.oci.Now().mode;
      c.oci := c.oci.Rest();
      assert c.Slots() == old(c.Slots());
      if c.status != SUCCESS {
        return c.status;
      }
      if !c.nonBlocking {
        c.status := SUCCESS;
        return c.status;
      }
      BreakServer(c);
      st := c.status;
    }

    /** ... from OCIBreak on. */
    method BreakServer(c: Connection)
      requires Valid() && Live(c)
      modifies c, c.stmtv
      ensures c.stmtv == old(c.stmtv) && c.Shows(Connections.BreakServer(old(c.View()), maxLongSize))
    {
      hide CursorTables.CloseExecuting, Connections.FreeHandle, Within;
      c.status := c.oci.Now().link;
      c.oci := c.oci.Rest();
      if c.status != SUCCESS {
        assert c.Slots() == old(c.Slots());
        return;
      }
      c.status := c.oci.Now().link;
      c.oci := c.oci.Rest();
      assert c.Slots() == old(c.Slots());
      CloseAllExecutingCursors(c);
      ghost var slots := c.Slots();
      DropExecHandle(c);
      assert c.Slots() == slots;
    }

    /** The end of `sqlo_break`: drop the handle `sqlo_exec` left, if any. */
    method DropExecHandle(c: Connection)
      modifies c`link, c`oci, c`status
      ensures c.AsWire()
        == if old(c.link).stmthp != NULL then Connections.FreeHandle(old(c.AsWire())) else old(c.AsWire())
    {
      if c.link.stmthp != NULL {
        c.status := c.FreeExecHandle();
        c.link := c.link.(stmthp := NULL);
      }
    }

    // --------------------------------------------------------- attach, connect

    /** `sqlo_server_attach`. `picked` is the slot as `_db_add` handed it out. When the name has to be
        split and cannot be, the call fails and the slot it took stays taken. */
    method ServerAttach(name: string, sid: Option<string>, oci: Oracle)
      returns (st: int, dbh: int, ghost picked: Connections.Conn)
      requires Valid() && NUL !in name && (sid.Some? ==> NUL !in sid.value)
      modifies this`dbv, Spare()
      ensures Valid()
      ensures old(Full()) || ServerName(name, sid, MAX_BUFLEN).None? ==> st == ERROR && dbh == -1
      ensures old(Full()) ==> dbv == old(dbv)
      ensures !old(Full()) && ServerName(name, sid, MAX_BUFLEN).None? ==>
        exists k :: k !in old(UsedDbs()) && UsedDbs() == old(UsedDbs()) + {k}
      ensures !old(Full()) && ServerName(name, sid, MAX_BUFLEN).Some? ==>
        && st == SUCCESS && 0 <= dbh < |dbv| && dbh !in old(UsedDbs()) && dbv[dbh] != null
        && Connections.Picked(picked) && dbv[dbh].Shows(Connections.Attach(picked))
        && UsedDbs() == old(UsedDbs()) + (if dbv[dbh].link.attached then {dbh} else {})
        && (fresh(dbv[dbh]) || dbv[dbh] in old(Unused()))
        && (forall s <- dbv[dbh].stmtv :: fresh(s) || s in old(Spare()))
    {
      hide Connections.Attach, ServerName;
      dbh := -1;
      picked := Connections.Conn(Connections.ZERO_LINK, CursorTables.Table([], oci, SUCCESS, false));
      var c := DbAdd(oci);
      if c == null {
        return ERROR, dbh, picked;
      }
      picked := c.View();
      var named := NameServer(name, sid);
      if !named {
        assert c.dbh !in old(UsedDbs()) && UsedDbs() == old(UsedDbs()) + {c.dbh};
        return ERROR, dbh, picked;
      }
      dbh := c.dbh;
      AttachDb(c);
      st := c.status;
    }

    /** Attaching the slot keeps the library valid, and frees the slot when refused. */
    method AttachDb(c: Connection)
      requires Valid() && Live(c) && Connections.Picked(c.View())
      modifies c, c.stmtv
      ensures Valid() && c.stmtv == old(c.stmtv) && c.Shows(Connections.Attach(old(c.View())))
      ensures c.status == SUCCESS && UsedDbs() == if c.link.attached then old(UsedDbs()) else old(UsedDbs()) - {c.dbh}
    {
      hide Connections.Attach;
      ghost var r := Connections.Attach(c.View());
      Connections.AttachOutcome(c.View());
      c.ServerAttach();
      InvGood(c, r);
    }

    /** The beginning of `sqlo_server_attach`: a name with a separator in it is split, and the server's
        name taken from it. */
    method NameServer(name: string, sid: Option<string>) returns (ok: bool)
      requires NUL !in name && (sid.Some? ==> NUL !in sid.value)
      ensures ok <==> ServerName(name, sid, MAX_BUFLEN).Some?
    {
      if '@' in name || '/' in name {
        var parts;
        ok, parts := SplitName(name, sid);
      } else {
        ok := true;
      }
    }

    /** Splitting into buffers of MAX_BUFLEN + 1 characters. */
    static method SplitName(cstr: string, sid: Option<string>) returns (ok: bool, parts: Parts)
      requires NUL !in cstr && (sid.Some? ==> NUL !in sid.value)
      ensures ok <==> Split(cstr, sid, MAX_BUFLEN).Some?
      ensures NUL !in parts.uid && NUL !in parts.tnsname && (ok ==> parts == Split(cstr, sid, MAX_BUFLEN).value)
    {
      hide Split;
      var uid, pwd, dbname := new char[MAX_BUFLEN + 1], new char[MAX_BUFLEN + 1], new char[MAX_BUFLEN + 1];
      ok := SplitCstring(Some(cstr), uid, pwd, dbname, MAX_BUFLEN, sid);
      parts := Parts(Text(uid[..]), Text(pwd[..]), Text(dbname[..]));
    }

    /** `sqlo_connect`. It succeeds exactly when it leaves a new connection used, attached and with a
        session; any failure leaves the set of used connections as it was. */
    method Connect(cstr: string, sid: Option<string>, oci: Oracle)
      returns (st: int, dbh: int, ghost picked: Connections.Conn)
      requires Valid() && NUL !in cstr && (sid.Some? ==> NUL !in sid.value)
      modifies this`dbv, Spare()
      ensures Valid()
      ensures st == SUCCESS <==>
        Db(dbh) != null && dbh !in old(UsedDbs()) && Db(dbh).link.attached && Db(dbh).link.session
      ensures UsedDbs() == old(UsedDbs()) + if st == SUCCESS then {dbh} else {}
      ensures old(Full()) || Split(cstr, sid, MAX_BUFLEN).None? ==> st == ERROR && dbv == old(dbv)
      ensures !old(Full()) && Split(cstr, sid, MAX_BUFLEN).Some? ==>
        && 0 <= dbh < |dbv| && dbv[dbh] != null && Connections.Picked(picked)
        && var r := Connections.Connect(picked); dbv[dbh].Shows(r.0) && st == r.1
    {
      hide Connections.Connect, Connections.Picked, Split, ServerName;
      var ok, parts := SplitName(cstr, sid);
      if !ok {
        dbh := -1;
        picked := Connections.Conn(Connections.ZERO_LINK, CursorTables.Table([], oci, SUCCESS, false));
        return ERROR, dbh, picked;
      }
      ServerNamed(cstr, sid, MAX_BUFLEN);
      UserNameWhole(cstr, sid, MAX_BUFLEN);
      st, dbh, picked := ConnectTo(parts, sid, oci);
    }

    /** `sqlo_connect` once its argument is split: attach, begin the session, free on failure. */
    method ConnectTo(parts: Parts, sid: Option<string>, oci: Oracle)
      returns (st: int, dbh: int, ghost picked: Connections.Conn)
      requires Valid() && NUL !in parts.tnsname && (sid.Some? ==> NUL !in sid.value)
      requires NUL !in parts.uid && '/' !in parts.uid && ServerName(parts.tnsname, sid, MAX_BUFLEN).Some?
      modifies this`dbv, Spare()
      ensures Valid()
      ensures st == SUCCESS <==>
        Db(dbh) != null && dbh !in old(UsedDbs()) && Db(dbh).link.attached && Db(dbh).link.session
      ensures UsedDbs() == old(UsedDbs()) + if st == SUCCESS then {dbh} else {}
      ensures old(Full()) ==> st == ERROR && dbv == old(dbv)
      ensures !old(Full()) ==>
        && 0 <= dbh < |dbv| && dbv[dbh] != null && Connections.Picked(picked)
        && var r := Connections.Connect(picked); dbv[dbh].Shows(r.0) && st == r.1
    {
      hide Connections.BeginOrFree, Connections.Picked, Connections.Attach, ServerName, Connections.SlotsOk,
        Connections.LinkOk;
      st, dbh, picked := ServerAttach(parts.tnsname, sid, oci);
      if st == SUCCESS {
        Connections.ConnectOutcome(picked);
        dbv[dbh].Seen(Connections.Attach(picked));
        st := BeginOrFree(dbh, parts);
      } else {
        var freed := ServerFree(dbh);
      }
    }

    /** The second half of `sqlo_connect`. */
    method BeginOrFree(dbh: nat, parts: Parts) returns (st: int)
      requires Valid() && dbh < |dbv| && dbv[dbh] != null && NUL !in parts.uid && '/' !in parts.uid
      modifies Frame(dbh)
      ensures Valid() && UsedDbs() == if dbv[dbh].link.used then old(UsedDbs()) else old(UsedDbs()) - {dbh}
      ensures var r := Connections.BeginOrFree(old(dbv[dbh].View())); dbv[dbh].Shows(r.0) && st == r.1
    {
      hide Connections.SessionBegin, Connections.Free;
      ghost var a := dbv[dbh].View();
      GoodInv(dbv[dbh]);
      if a.link.used {
        Connections.BeginOutcome(a);
      } else {
        Connections.BeginRefused(a);
      }
      st := SessionBegin(dbh, Some(parts.uid), Some(parts.pwd), None);
      assert a.link.used || dbv[dbh].Slots() == old(dbv[dbh].Slots());
      if st != SUCCESS {
        FreeFailed(dbh, if a.link.used then Connections.SessionBegin(a).0 else a);
      }
    }

    /** Freeing after a failure; there is nothing left to do when the slot is free already. */
    method FreeFailed(dbh: nat, ghost b: Connections.Conn)
      requires Valid() && dbh < |dbv| && dbv[dbh] != null && dbv[dbh].Shows(b) && b.Ok()
      modifies Frame(dbh)
      ensures Valid() && UsedDbs() == old(UsedDbs()) - {dbh}
      ensures dbv[dbh].Shows(if b.link.used then Connections.Free(b).0 else b)
    {
      hide Connections.DbRelease;
      dbv[dbh].Seen(b);
      if b.link.used {
        GoodInv(dbv[dbh]);
        Connections.FreeOutcome(b);
      }
      var freed := ServerFree(dbh);
      assert b.link.used || dbv[dbh].Slots() == old(dbv[dbh].Slots());
    }
  }
}
