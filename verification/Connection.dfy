/** The life of one connection slot: attach, session, statements, break, detach, release. */
module Connections {
  import opened Oci
  import opened Handles
  import opened Statements
  import opened Cursors
  import opened CursorTables
  import opened Wrappers
  import Polls
  import Replies

  /** The connection's own fields: its five OCI handles, the statement handle of
      `sqlo_exec`, and its flags. */
  datatype Link = Link(srvhp: Handle, errhp: Handle, svchp: Handle, authp: Handle, envhp: Handle,
                       stmthp: Handle, used: bool, attached: bool, session: bool)
  {
    predicate AllNull() {
      srvhp == NULL && errhp == NULL && svchp == NULL && authp == NULL && envhp == NULL
    }

    predicate NoneNull() {
      srvhp != NULL && errhp != NULL && svchp != NULL && authp != NULL && envhp != NULL
    }
  }

  const ZERO_LINK := Link(NULL, NULL, NULL, NULL, NULL, NULL, false, false, false)

  /** What a connection is besides its statements, as most calls use it. */
  datatype Wire = Wire(link: Link, oci: Oracle, status: int) {
    /** One more answer, recorded as the status. */
    function Answered(status: int): (w: Wire)
      ensures Within(w.oci.script, oci.script)
    {
      Wire(link, oci.Rest(), status)
    }
  }

  datatype Conn = Conn(link: Link, tb: Table) {
    ghost predicate Ok() { tb.Ok() }

    function AsWire(): Wire {
      Wire(link, tb.oci, tb.status)
    }

    function With(w: Wire): Conn {
      Conn(w.link, tb.(oci := w.oci, status := w.status))
    }
  }

  // ------------------------------------------------------------ attach, release

  /** OCIHandleAlloc or OCIEnvCreate: the handle is NULL when refused. */
  function Grab(w: Wire): (r: (Wire, Handle))
    ensures Within(r.0.oci.script, w.oci.script) && r.0.link == w.link
    ensures r.0.status == SUCCESS <==> r.1 != NULL
  {
    var alloc := w.oci.Now().alloc;
    var w1 := w.Answered(alloc);
    if alloc != SUCCESS then (w1, NULL)
    else (w1.(oci := w1.oci.(last := w1.oci.last + 1)), w1.oci.last + 1)
  }

  /** OCIHandleFree whose reply is ignored, on a handle that may be NULL. */
  function Discard(oci: Oracle, h: Handle): (r: Oracle)
    ensures Within(r.script, oci.script)
  {
    if h == NULL then oci else oci.Rest().(freed := oci.freed + multiset{h})
  }

  function ReleaseAll(slots: seq<State>): (r: seq<State>)
    ensures |r| == |slots| && forall i :: 0 <= i < |slots| ==> r[i] == Released(slots[i])
  {
    seq(|slots|, i requires 0 <= i < |slots| => Released(slots[i]))
  }

  /** The five handles freed, in the order of `_db_release`. */
  function DiscardAll(oci: Oracle, l: Link): (r: Oracle)
    ensures Within(r.script, oci.script)
  {
    Discard(Discard(Discard(Discard(Discard(oci, l.srvhp), l.svchp), l.errhp), l.authp), l.envhp)
  }

  /** `_db_release`: free the handles, clear the status, release every statement, lower the
      flags. The handle of `sqlo_exec` is left alone. */
  function DbRelease(c: Conn): (r: Conn)
    requires c.Ok()
    ensures r.Ok() && Within(r.tb.oci.script, c.tb.oci.script) && r.tb.status == SUCCESS
  {
    Conn(ZERO_LINK.(stmthp := c.link.stmthp),
         Table(ReleaseAll(c.tb.slots), DiscardAll(c.tb.oci, c.link), SUCCESS, c.tb.nonBlocking))
  }

  lemma DbReleaseParts(c: Conn)
    requires c.Ok()
    ensures var r := DbRelease(c);
      && r.link == ZERO_LINK.(stmthp := c.link.stmthp) && r.tb.slots == ReleaseAll(c.tb.slots)
      && r.tb.oci == DiscardAll(c.tb.oci, c.link) && r.tb.nonBlocking == c.tb.nonBlocking
  {
  }

  /** The OCI conversation of `sqlo_server_attach`, up to the first refusal; tells whether there
      was none. */
  function AttachWire(w: Wire): (r: (Wire, bool))
    ensures Within(r.0.oci.script, w.oci.script)
  {
    var g1 := Grab(w);
    var w1 := g1.0.(link := w.link.(envhp := g1.1));
    if g1.1 == NULL then (w1, false)
    else
      var g2 := Grab(w1);
      var w2 := g2.0.(link := w1.link.(svchp := g2.1));
      if g2.1 == NULL then (w2, false)
      else
        var g3 := Grab(w2);
        var w3 := g3.0.(link := w2.link.(errhp := g3.1));
        if g3.1 == NULL then (w3, false)
        else
          var g4 := Grab(w3);
          var w4 := g4.0.(link := w3.link.(srvhp := g4.1));
          if g4.1 == NULL then (w4, false) else AttachServer(w4)
  }

  /** Its second half: attach to the server, tie it to the service context, get the session handle. */
  function AttachServer(w: Wire): (r: (Wire, bool))
    ensures Within(r.0.oci.script, w.oci.script)
  {
    var w1 := w.Answered(w.oci.Now().link);
    if w1.status != SUCCESS then (w1, false)
    else
      var w2 := w1.Answered(w1.oci.Now().local);
      if w2.status != SUCCESS then (w2, false)
      else
        var g := Grab(w2);
        var w3 := g.0.(link := w2.link.(authp := g.1));
        if g.1 == NULL then (w3, false) else (w3.(link := w3.link.(used := true, attached := true)), true)
  }

  /** `sqlo_server_attach` once `_db_add` has picked this slot and the server's name is known:
      any refusal releases the slot. */
  function Attach(c: Conn): (r: Conn)
    requires c.Ok()
    ensures r.Ok()
  {
    var a := AttachWire(c.AsWire());
    if a.1 then c.With(a.0) else DbRelease(c.With(a.0))
  }

  // ---------------------------------------------------------------- the session

  function PollBegin(w: Wire): (r: Wire)
    ensures r.link == w.link && Within(r.oci.script, w.oci.script)
    decreases |w.oci.script|
  {
    var t := w.oci.Now();
    var w1 := w.Answered(t.link);
    if t.link == STILL_EXECUTING || (t.link == ERROR && t.value == BUSY_CODE) then PollBegin(w1) else w1
  }

  function PollLocal(w: Wire): (r: Wire)
    ensures r.link == w.link && Within(r.oci.script, w.oci.script)
    decreases |w.oci.script|
  {
    var w1 := w.Answered(w.oci.Now().local);
    if w1.status == STILL_EXECUTING then PollLocal(w1) else w1
  }

  function PollLink(w: Wire): (r: Wire)
    ensures r.link == w.link && Within(r.oci.script, w.oci.script)
    decreases |w.oci.script|
  {
    var w1 := w.Answered(w.oci.Now().link);
    if w1.status == STILL_EXECUTING then PollLink(w1) else w1
  }

  /** `sqlo_session_begin` with a user name and a password. */
  function BeginWire(w: Wire): (Wire, int) {
    if !w.link.used || !w.link.attached || w.link.session then (w, INVALID_DB_HANDLE)
    else
      var w1 := w.Answered(w.oci.Now().local);
      if w1.status != SUCCESS then (w1, w1.status)
      else
        var w2 := w1.Answered(w1.oci.Now().local);
        if w2.status != SUCCESS then (w2, w2.status)
        else
          var w3 := PollBegin(w2);
          if w3.status != SUCCESS then (w3, w3.status)
          else
            var w4 := PollLocal(w3);
            if w4.status != SUCCESS then (w4, w4.status)
            else (w4.(link := w4.link.(session := true)), SUCCESS)
  }

  function SessionBegin(c: Conn): (r: (Conn, int))
    requires c.Ok()
    ensures r.0.Ok()
  {
    var b := BeginWire(c.AsWire());
    (c.With(b.0), b.1)
  }

  /** `sqlo_session_end`. */
  function SessionEnd(c: Conn, maxLong: nat): (r: (Conn, int))
    requires c.Ok()
    ensures r.0.Ok()
  {
    if !c.link.used || !c.link.session then (c, INVALID_DB_HANDLE)
    else
      var c1 := c.(tb := CloseAll(c.tb, 0, maxLong));
      var w := PollLink(c1.AsWire());
      (c1.With(w.(link := w.link.(session := false))), w.status)
  }

  /** OCIServerDetach, OCIBreak or OCIReset. */
  function AskServer(c: Conn): (r: Conn)
    ensures c.Ok() ==> r.Ok()
    ensures Within(r.tb.oci.script, c.tb.oci.script)
    ensures r.link == c.link && r.tb.slots == c.tb.slots && r.tb.nonBlocking == c.tb.nonBlocking
      && r.tb.status == c.tb.oci.Now().link
  {
    c.With(c.AsWire().Answered(c.tb.oci.Now().link))
  }

  /** `sqlo_server_detach`. The reply of OCIServerDetach is lost: releasing clears the status. */
  function Detach(c: Conn, maxLong: nat): (r: (Conn, int))
    requires c.Ok()
    ensures r.0.Ok()
  {
    if !c.link.used || !c.link.attached then (c, INVALID_DB_HANDLE)
    else
      var e := if c.link.session then SessionEnd(c, maxLong) else (c, SUCCESS);
      if e.1 != SUCCESS then e
      else (DbRelease(AskServer(e.0)), SUCCESS)
  }

  /** `sqlo_server_free`. */
  function Free(c: Conn): (r: (Conn, int))
    requires c.Ok()
    ensures r.0.Ok()
  {
    if !c.link.used then (c, INVALID_DB_HANDLE)
    else (DbRelease(if c.link.attached then AskServer(c) else c), SUCCESS)
  }

  /** `sqlo_finish`. */
  function FinishConn(c: Conn, maxLong: nat): (r: (Conn, int))
    requires c.Ok()
    ensures r.0.Ok()
  {
    if !c.link.used then (c, INVALID_DB_HANDLE)
    else if !c.link.session then (c, SUCCESS)
    else
      var e := SessionEnd(c, maxLong);
      if e.1 != SUCCESS then (Free(e.0).0, e.1)
      else
        var d := Detach(e.0, maxLong);
        if d.1 != SUCCESS then (Free(d.0).0, d.1) else d
  }

  // --------------------------------------------------------------- exec, break

  /** `sqlo_exec`: prepare on the first call, execute on every call, free at the end. */
  function ExecWire(w: Wire): (r: (Wire, int))
    ensures r.0.link == w.link.(stmthp := r.0.link.stmthp)
  {
    if !w.link.used then (w, INVALID_DB_HANDLE)
    else if w.link.stmthp != NULL then ExecuteHandle(w)
    else
      var g := Grab(w);
      if g.1 == NULL then (g.0, g.0.status)
      else
        var w1 := Prepared(g.0.(link := w.link.(stmthp := g.1)));
        if w1.status != SUCCESS then (w1, w1.status) else ExecuteHandle(w1)
  }

  /** OCIStmtPrepare on the handle of `sqlo_exec`. */
  function Prepared(w: Wire): (r: Wire)
    ensures r.link == w.link && Within(r.oci.script, w.oci.script)
  {
    Wire(w.link, w.oci.Rest().(prepared := w.oci.prepared + multiset{w.link.stmthp}), w.oci.Now().prepare)
  }

  /** OCIStmtExecute on it. */
  function Executed(w: Wire): (r: Wire)
    ensures r.link == w.link && Within(r.oci.script, w.oci.script)
  {
    Wire(w.link, w.oci.Rest().(executed := w.oci.executed + multiset{w.link.stmthp}), w.oci.Now().execute)
  }

  /** OCIHandleFree on it, and the field cleared. */
  function FreeHandle(w: Wire): (r: Wire)
    ensures Within(r.oci.script, w.oci.script)
  {
    Wire(w.link.(stmthp := NULL), w.oci.Rest().(freed := w.oci.freed + multiset{w.link.stmthp}), w.oci.Now().free)
  }

  function ExecuteHandle(w: Wire): (r: (Wire, int))
    ensures r.0.link == w.link.(stmthp := r.0.link.stmthp)
  {
    var w1 := Executed(w);
    if w1.status == STILL_EXECUTING then (w1, STILL_EXECUTING)
    else if w1.status != SUCCESS then (FreeHandle(w1).(status := w1.status), w1.status)
    else
      var rows := w1.oci.Now().value;
      var w2 := w1.Answered(w1.oci.Now().local);
      if w2.status != SUCCESS then (FreeHandle(w2).(status := w2.status), w2.status)
      else
        var w3 := FreeHandle(w2);
        // a refused free returns before the field is cleared
        if w3.status != SUCCESS then (w3.(link := w2.link), w3.status) else (w3, rows)
  }

  function Exec(c: Conn): (r: (Conn, int))
    requires c.Ok()
    ensures r.0.Ok()
  {
    var e := ExecWire(c.AsWire());
    (c.With(e.0), e.1)
  }

  /** `sqlo_break`. */
  function Break(c: Conn, maxLong: nat): (r: (Conn, int))
    requires c.Ok()
    ensures r.0.Ok()
  {
    if !c.link.used then (c, INVALID_DB_HANDLE)
    else
      var c1 := c.With(c.AsWire().Answered(c.tb.oci.Now().mode));
      if c1.tb.status != SUCCESS then (c1, c1.tb.status)
      else if !c.tb.nonBlocking then (c1, SUCCESS)
      else
        var c2 := BreakServer(c1, maxLong);
        (c2, c2.tb.status)
  }

  /** Its effect in non-blocking mode: break, reset whatever that replies, close the executing
      statements, drop the handle of `sqlo_exec`. */
  function BreakServer(c: Conn, maxLong: nat): (r: Conn)
    requires c.Ok()
    ensures r.Ok()
  {
    var c1 := AskServer(c);
    if c1.tb.status != SUCCESS then c1
    else
      var c2 := AskServer(c1);
      var c3 := c2.(tb := CloseExecuting(c2.tb, 0, maxLong));
      if c3.link.stmthp != NULL then c3.With(FreeHandle(c3.AsWire())) else c3
  }

  /** `sqlo_connect` on the slot `_db_add` picked: attach, begin the session, and free
      everything when that fails. */
  function Connect(c: Conn): (r: (Conn, int))
    requires c.Ok()
    ensures r.0.Ok()
  {
    BeginOrFree(Attach(c))
  }

  function BeginOrFree(c: Conn): (r: (Conn, int))
    requires c.Ok()
    ensures r.0.Ok()
  {
    var b := SessionBegin(c);
    if b.1 != SUCCESS then (Free(b.0).0, b.1) else b
  }

  // -------------------------------------------------------- what always holds

  /** A slot in use knows its own index; a slot not in use is idle. */
  ghost predicate SlotOk(s: State, i: nat) {
    (s.used && s.sth == i) || s.Idle()
  }

  ghost predicate SlotsOk(slots: seq<State>) {
    forall i :: 0 <= i < |slots| ==> SlotOk(slots[i], i)
  }

  ghost predicate LinkOk(l: Link) {
    && (l.session ==> l.attached)
    && (l.attached ==> l.used && l.NoneNull())
    && (!l.used ==> l.AllNull())
  }

  /** The lifecycle invariant: a session implies an attached server, which implies a slot in use
      with all five handles; a slot not in use has none of them and no statement in use. */
  ghost predicate Inv(c: Conn) {
    && c.Ok() && SlotsOk(c.tb.slots) && LinkOk(c.link)
    && (!c.link.used ==> forall i :: 0 <= i < |c.tb.slots| ==> c.tb.slots[i].Idle())
  }

  /** A slot given back completely. */
  ghost predicate Gone(c: Conn) {
    && c.link.AllNull() && !c.link.used && !c.link.attached && !c.link.session
    && forall i :: 0 <= i < |c.tb.slots| ==> c.tb.slots[i].Idle()
  }

  /** As `_db_add` hands it out. */
  ghost predicate Picked(c: Conn) {
    && c.Ok() && c.link.AllNull() && c.link.used && !c.link.attached && !c.link.session
    && forall i :: 0 <= i < |c.tb.slots| ==> c.tb.slots[i].Idle()
  }

  /** The statement slots' arrays are as they were. */
  ghost predicate SameArrays(c: Conn, c': Conn) {
    && |c'.tb.slots| == |c.tb.slots|
    && forall i :: 0 <= i < |c.tb.slots| ==>
         c'.tb.slots[i].binds == c.tb.slots[i].binds && c'.tb.slots[i].defs == c.tb.slots[i].defs
  }

  lemma ReleaseOutcome(c: Conn)
    requires c.Ok()
    ensures var r := DbRelease(c);
      && Gone(r) && Inv(r) && r.tb.status == SUCCESS && r.link.stmthp == c.link.stmthp
      && SameArrays(c, r)
  {
    hide DiscardAll;
  }

  /** The handles a connection owns, in the order they are freed. */
  function OwnHandles(l: Link): seq<Handle> {
    Present([l.srvhp, l.svchp, l.errhp, l.authp, l.envhp])
  }

  function Present(hs: seq<Handle>): seq<Handle> {
    if hs == [] then [] else (if hs[0] == NULL then [] else [hs[0]]) + Present(hs[1..])
  }

  function DiscardSeq(oci: Oracle, hs: seq<Handle>): Oracle
    decreases |hs|
  {
    if hs == [] then oci else DiscardSeq(Discard(oci, hs[0]), hs[1..])
  }

  /** Releasing frees each of them once. */
  lemma ReleaseFrees(c: Conn)
    requires c.Ok()
    ensures FreesTo(c.tb.oci, DbRelease(c).tb.oci, OwnHandles(c.link))
  {
    hide DbRelease, Discard, FreesTo;
    DbReleaseParts(c);
    var l := c.link;
    var hs := [l.srvhp, l.svchp, l.errhp, l.authp, l.envhp];
    var h1, h2, h3 := hs[1..], hs[2..], hs[3..];
    assert h1[1..] == h2 && h2[1..] == h3 && h3[1..] == [l.envhp];
    var o1 := Discard(c.tb.oci, l.srvhp);
    var o2 := Discard(o1, l.svchp);
    var o3 := Discard(o2, l.errhp);
    var o4 := Discard(o3, l.authp);
    assert DiscardSeq(o4, [l.envhp]) == Discard(o4, l.envhp);
    assert DiscardSeq(c.tb.oci, hs) == DiscardSeq(o1, h1) == DiscardSeq(o2, h2) == DiscardSeq(o3, h3)
        == DiscardSeq(o4, [l.envhp]);
    DiscardSeqFrees(c.tb.oci, hs);
  }

  lemma {:induction false} DiscardSeqFrees(oci: Oracle, hs: seq<Handle>)
    ensures FreesTo(oci, DiscardSeq(oci, hs), Present(hs))
    decreases |hs|
  {
    if hs == [] {
      var none: seq<Handle> := [];
      assert multiset(none) == multiset{};
    } else {
      DiscardSeqFrees(Discard(oci, hs[0]), hs[1..]);
      if hs[0] != NULL {
        FreesThen(oci, Discard(oci, hs[0]), DiscardSeq(oci, hs), hs[0], Present(hs[1..]));
      } else {
        assert Present(hs) == Present(hs[1..]);
      }
    }
  }

  /** The seven calls of attaching are accepted: four handles, the server, its attribute, the fifth handle. */
  predicate AttachAccepted(script: seq<Turn>) {
    && At(script, 0).alloc == SUCCESS && At(script, 1).alloc == SUCCESS
    && At(script, 2).alloc == SUCCESS && At(script, 3).alloc == SUCCESS
    && At(script, 4).link == SUCCESS && At(script, 5).local == SUCCESS && At(script, 6).alloc == SUCCESS
  }

  /** Attaching ends attached with all five handles if its seven calls are accepted, else with the slot given
      back; the status it returns is SUCCESS either way, because releasing clears it. */
  lemma AttachOutcome(c: Conn)
    requires Picked(c)
    ensures var r := Attach(c);
      && Inv(r) && !r.link.session && r.tb.status == SUCCESS && r.link.stmthp == c.link.stmthp
      && (r.link.attached <==> AttachAccepted(c.tb.oci.script)) && (!r.link.attached ==> Gone(r))
      && SameArrays(c, r)
      && (r.link.attached ==> r.tb.slots == c.tb.slots && r.tb.oci.script == After(c.tb.oci.script, 7))
  {
    hide AttachWire, DbRelease, AttachAccepted;
    AttachWireOutcome(c.AsWire());
    AttachUsesSeven(c.AsWire());
    ReleaseOutcome(c.With(AttachWire(c.AsWire()).0));
  }

  /** A server that refuses: the status is SUCCESS and nothing is attached. */
  lemma RefusedAttach(c: Conn)
    requires Picked(c) && c.tb.oci.script == [QUIET, QUIET, QUIET, QUIET, QUIET.(link := ERROR)]
    ensures Attach(c).tb.status == SUCCESS && !Attach(c).link.attached && Gone(Attach(c))
  {
    hide Attach, Gone, Inv;
    AttachOutcome(c);
  }

  lemma AttachWireOutcome(w: Wire)
    requires w.link.AllNull() && w.link.used && !w.link.attached && !w.link.session
    ensures var r := AttachWire(w);
      && r.0.link.stmthp == w.link.stmthp && (r.1 <==> AttachAccepted(w.oci.script))
      && (r.1 ==> r.0.status == SUCCESS && LinkOk(r.0.link) && r.0.link.attached && !r.0.link.session)
  {
    hide AttachServer, Within;
    var g1 := Grab(w);
    if g1.1 != NULL {
      var w1 := g1.0.(link := w.link.(envhp := g1.1));
      var g2 := Grab(w1);
      if g2.1 != NULL {
        var w2 := g2.0.(link := w1.link.(svchp := g2.1));
        var g3 := Grab(w2);
        if g3.1 != NULL {
          var w3 := g3.0.(link := w2.link.(errhp := g3.1));
          var g4 := Grab(w3);
          AttachServerOutcome(g4.0.(link := w3.link.(srvhp := g4.1)));
        }
      }
    }
  }

  /** Attaching takes seven answers. */
  lemma AttachUsesSeven(w: Wire)
    ensures AttachWire(w).1 ==> AttachWire(w).0.oci.script == After(w.oci.script, 7)
  {
    hide Within, AttachServer;
    if AttachWire(w).1 {
      var w4 := AttachedFour(w);
      AfterThen(w.oci.script, 4, 3);
      ServerUsesThree(w4);
    }
  }

  lemma AttachedFour(w: Wire) returns (w4: Wire)
    requires AttachWire(w).1
    ensures AttachWire(w) == AttachServer(w4) && w4.oci.script == After(w.oci.script, 4)
  {
    hide AttachServer;
    var g1 := Grab(w);
    var w1 := g1.0.(link := w.link.(envhp := g1.1));
    var g2 := Grab(w1);
    var w2 := g2.0.(link := w1.link.(svchp := g2.1));
    var g3 := Grab(w2);
    var w3 := g3.0.(link := w2.link.(errhp := g3.1));
    var g4 := Grab(w3);
    w4 := g4.0.(link := w3.link.(srvhp := g4.1));
  }

  lemma ServerUsesThree(w: Wire)
    ensures AttachServer(w).1 ==> AttachServer(w).0.oci.script == After(w.oci.script, 3)
  {
  }

  lemma AttachServerOutcome(w: Wire)
    ensures var r := AttachServer(w);
      && r.0.link.stmthp == w.link.stmthp
      && (r.1 <==>
            && At(w.oci.script, 0).link == SUCCESS && At(w.oci.script, 1).local == SUCCESS
            && At(w.oci.script, 2).alloc == SUCCESS)
      && (r.1 ==>
            && r.0.status == SUCCESS
            && r.0.link == w.link.(authp := r.0.link.authp, used := true, attached := true) && r.0.link.authp != NULL)
  {
  }

  /** Beginning a session succeeds exactly on a connection that is attached and has none, when the replies
      to its four calls are accepted, two of them after a while; it then raises the flag, the only thing it
      changes. The first refusal is returned otherwise. */
  lemma BeginOutcome(c: Conn)
    requires c.Ok()
    ensures var r := SessionBegin(c);
      var ready := c.link.used && c.link.attached && !c.link.session;
      && r.0.tb.slots == c.tb.slots
      && (r.1 == SUCCESS <==> ready && Replies.BeginAccepted(c.tb.oci.script))
      && r.1 == (if ready then Replies.BeginReply(c.tb.oci.script) else INVALID_DB_HANDLE)
      && r.0.link == (if r.1 == SUCCESS then c.link.(session := true) else c.link)
  {
    hide PollBegin, PollLocal, Replies.SessionReply, Replies.AttributeReply;
    var w := c.AsWire();
    AfterThen(w.oci.script, 1, 1);
    var w2 := w.Answered(w.oci.Now().local).Answered(w.oci.Rest().Now().local);
    PollBeginReply(w2);
    PollLocalReply(PollBegin(w2));
  }

  lemma {:induction false} PollBeginReply(w: Wire)
    ensures Replies.Reply(PollBegin(w).status, PollBegin(w).oci.script) == Replies.SessionReply(w.oci.script)
    decreases |w.oci.script|
  {
    var t := w.oci.Now();
    if t.link == STILL_EXECUTING || (t.link == ERROR && t.value == BUSY_CODE) {
      PollBeginReply(w.Answered(t.link));
    }
  }

  lemma {:induction false} PollLocalReply(w: Wire)
    ensures Replies.Reply(PollLocal(w).status, PollLocal(w).oci.script) == Replies.AttributeReply(w.oci.script)
    decreases |w.oci.script|
  {
    if w.oci.Now().local == STILL_EXECUTING {
      PollLocalReply(w.Answered(STILL_EXECUTING));
    }
  }

  lemma {:induction false} PollLinkReply(w: Wire)
    ensures Replies.Reply(PollLink(w).status, PollLink(w).oci.script) == Replies.EndReply(w.oci.script)
    decreases |w.oci.script|
  {
    if w.oci.Now().link == STILL_EXECUTING {
      PollLinkReply(w.Answered(STILL_EXECUTING));
    }
  }

  /** A wrong password: refused, and no session. */
  lemma RefusedLogin(c: Conn)
    requires c.Ok() && c.link.used && c.link.attached && !c.link.session
    requires c.tb.oci.script == [QUIET, QUIET, QUIET.(link := ERROR)]
    ensures SessionBegin(c).1 == ERROR && !SessionBegin(c).0.link.session
  {
    hide SessionBegin;
    BeginOutcome(c);
  }

  lemma BeginsNothing(c: Conn)
    requires c.Ok() && (!c.link.used || !c.link.attached || c.link.session)
    ensures SessionBegin(c) == (c, INVALID_DB_HANDLE)
  {
    assert c.With(c.AsWire()) == c;
  }

  lemma BeginKeepsInv(c: Conn)
    requires Inv(c)
    ensures Inv(SessionBegin(c).0)
  {
    hide BeginWire;
    BeginOutcome(c);
  }

  /** Connecting succeeds exactly when it leaves a used, attached connection with a session, and
      otherwise gives the slot back, although a failed attach does not say so. */
  lemma ConnectOutcome(c: Conn)
    requires Picked(c)
    ensures var r := Connect(c);
      && Inv(r.0)
      && (r.1 == SUCCESS <==> AttachAccepted(c.tb.oci.script) && Replies.BeginAccepted(After(c.tb.oci.script, 7)))
      && r.1 ==
         (if AttachAccepted(c.tb.oci.script) then Replies.BeginReply(After(c.tb.oci.script, 7)) else INVALID_DB_HANDLE)
      && (r.1 == SUCCESS <==> r.0.link.used && r.0.link.attached && r.0.link.session)
      && (r.1 != SUCCESS ==> Gone(r.0)) && SameArrays(c, r.0) && (r.1 == SUCCESS ==> r.0.tb.slots == c.tb.slots)
      && r.0.link.stmthp == c.link.stmthp
  {
    hide Attach, SessionBegin, DbRelease;
    AttachOutcome(c);
    var a := Attach(c);
    BeginOutcome(a);
    var b := SessionBegin(a);
    ReleaseOutcome(AskServer(b.0));
    ReleaseOutcome(b.0);
  }

  /** On a slot given back, as after a failed attach, the rest of `sqlo_connect` only finds the
      handle invalid. */
  lemma BeginRefused(c: Conn)
    requires c.Ok() && !c.link.used
    ensures BeginOrFree(c) == (c, INVALID_DB_HANDLE)
  {
    assert c.With(c.AsWire()) == c;
  }

  /** Ending a session: flag down whatever the server replies, every statement slot that was in use
      emptied, the others untouched. */
  lemma EndOutcome(c: Conn, maxLong: nat)
    requires Inv(c)
    ensures var r := SessionEnd(c, maxLong);
      && Inv(r.0) && |r.0.tb.slots| == |c.tb.slots|
      && (c.link.session ==>
            && r.0.link == c.link.(session := false)
            && forall i :: 0 <= i < |c.tb.slots| ==>
                 if c.tb.slots[i].used then r.0.tb.slots[i].binds == NO_BINDS && r.0.tb.slots[i].defs.num == 0
                 else r.0.tb.slots[i] == c.tb.slots[i])
      && (!c.link.session ==> r == (c, INVALID_DB_HANDLE))
  {
    hide PollLink, CloseAll;
    CloseAllOutcome(c.tb, 0, maxLong);
    var slots := CloseAll(c.tb, 0, maxLong).slots;
    forall i | 0 <= i < |slots|
      ensures SlotOk(slots[i], i)
    {
      assert SlotOk(c.tb.slots[i], i);
    }
  }

  /** What ending a session returns: the first reply to OCISessionEnd that is not busy, once the handle of every
      statement in use has been freed, once each; a statement stays in use exactly when that was refused. */
  lemma EndResult(c: Conn, maxLong: nat)
    requires c.Ok() && c.link.used && c.link.session
    ensures var r := SessionEnd(c, maxLong);
      var n := |c.tb.slots|;
      var hs := ToFree(c.tb.slots, 0, n, true);
      && r.1 == Replies.EndReply(After(c.tb.oci.script, |hs|)).status
      && r.0.tb.oci.freed == c.tb.oci.freed + multiset(hs) && |r.0.tb.slots| == n
      && forall j :: 0 <= j < n && c.tb.slots[j].used ==>
           (r.0.tb.slots[j].used <==> CloseReply(c.tb.slots, c.tb.oci.script, 0, j, true) != SUCCESS)
  {
    hide CloseAll, PollLink, ToFree, CloseReply, After, Replies.EndReply;
    CloseAllFrees(c.tb, 0, maxLong);
    var w := c.(tb := CloseAll(c.tb, 0, maxLong)).AsWire();
    PollLinkReply(w);
    PollLinkFrees(w);
  }

  lemma {:induction false} PollLinkFrees(w: Wire)
    ensures PollLink(w).oci.freed == w.oci.freed
    decreases |w.oci.script|
  {
    if w.oci.Now().link == STILL_EXECUTING {
      PollLinkFrees(w.Answered(STILL_EXECUTING));
    }
  }

  lemma EndsNothing(c: Conn, maxLong: nat)
    requires c.Ok() && !c.link.session
    ensures SessionEnd(c, maxLong) == (c, INVALID_DB_HANDLE)
  {
  }

  lemma DetachOutcome(c: Conn, maxLong: nat)
    requires Inv(c)
    ensures var r := Detach(c, maxLong);
      && Inv(r.0)
      && r.1 == (if !c.link.attached then INVALID_DB_HANDLE
                 else if c.link.session then SessionEnd(c, maxLong).1 else SUCCESS)
      && (r.1 == SUCCESS ==> Gone(r.0))
      && (r.1 != SUCCESS && c.link.attached ==> c.link.session && r.0.link == c.link.(session := false))
      && (c.link.attached && !c.link.session ==>
            r.1 == SUCCESS && SameArrays(c, r.0))
  {
    hide SessionEnd, DbRelease;
    EndOutcome(c, maxLong);
    var e := if c.link.session then SessionEnd(c, maxLong) else (c, SUCCESS);
    ReleaseOutcome(AskServer(e.0));
  }

  /** Freeing a connection gives the slot back but keeps the statements' arrays: it leaves the
      slots without leftover defines exactly when no statement had any. */
  lemma FreeOutcome(c: Conn)
    requires Inv(c) && c.link.used
    ensures var r := Free(c);
      && Gone(r.0) && Inv(r.0) && r.1 == SUCCESS && SameArrays(c, r.0)
      && (NoLeftovers(r.0) <==>
            forall i :: 0 <= i < |c.tb.slots| ==> c.tb.slots[i].defs.num == 0 && c.tb.slots[i].binds.num == 0)
  {
    hide DbRelease;
    var c1 := if c.link.attached then AskServer(c) else c;
    ReleaseOutcome(c1);
    var r := DbRelease(c1);
    if NoLeftovers(r) {
      forall i | 0 <= i < |c.tb.slots|
        ensures c.tb.slots[i].defs.num == 0 && c.tb.slots[i].binds.num == 0
      {
        assert !r.tb.slots[i].used;
      }
    }
  }

  /** No unused statement slot has anything bound or defined. */
  ghost predicate NoLeftovers(c: Conn) {
    NoSlotLeftovers(c.tb.slots)
  }

  ghost predicate NoSlotLeftovers(slots: seq<State>) {
    forall i :: 0 <= i < |slots| && !slots[i].used ==> slots[i].binds.num == 0 && slots[i].defs.num == 0
  }

  /** Teardown is total: finishing a logged-in connection gives its slot back whatever ending the
      session, detaching and freeing handles reply, and leaves nothing bound or defined in any
      statement slot. */
  lemma FinishOutcome(c: Conn, maxLong: nat)
    requires Inv(c) && c.link.session && NoLeftovers(c)
    ensures var r := FinishConn(c, maxLong);
      Gone(r.0) && Inv(r.0) && NoLeftovers(r.0)
  {
    hide SessionEnd, Detach, Free, Inv, Gone;
    InvMeans(c);
    EndOutcome(c, maxLong);
    var e := SessionEnd(c, maxLong);
    InvMeans(e.0);
    if e.1 != SUCCESS {
      FreeOutcome(e.0);
    } else {
      DetachOutcome(e.0, maxLong);
      InvMeans(Detach(e.0, maxLong).0);
    }
  }

  /** It returns what ending the session replied, for every reply; detaching and freeing add nothing. */
  lemma FinishResult(c: Conn, maxLong: nat)
    requires Inv(c)
    ensures FinishConn(c, maxLong).1
      == if !c.link.used then INVALID_DB_HANDLE
         else if !c.link.session then SUCCESS
         else Replies.EndReply(After(c.tb.oci.script, |ToFree(c.tb.slots, 0, |c.tb.slots|, true)|)).status
  {
    hide SessionEnd, Detach, Free, ToFree, After, Replies.EndReply;
    if c.link.used && c.link.session {
      EndResult(c, maxLong);
      EndOutcome(c, maxLong);
      DetachOutcome(SessionEnd(c, maxLong).0, maxLong);
    }
  }

  lemma InvMeans(c: Conn)
    requires Inv(c)
    ensures c.Ok() && (c.link.session ==> c.link.attached) && (c.link.attached ==> c.link.used)
  {
  }

  /** Finishing without a session does nothing and reports SUCCESS: the slot is given back
      exactly when there was a session. */
  lemma FinishNeedsSession(c: Conn, maxLong: nat)
    requires Inv(c) && c.link.used && NoLeftovers(c)
    ensures Gone(FinishConn(c, maxLong).0) <==> c.link.session
    ensures !c.link.session ==> FinishConn(c, maxLong) == (c, SUCCESS)
  {
    if c.link.session {
      FinishOutcome(c, maxLong);
    }
  }

  // ------------------------------------------------------------------- break

  /** `sqlo_break` in non-blocking mode, once the break is accepted, closes exactly the statements
      still executing and drops the handle of `sqlo_exec`; every other statement keeps every
      field. Otherwise no statement changes. */
  lemma BreakOutcome(c: Conn, maxLong: nat)
    requires Inv(c) && c.link.used
    ensures var r := Break(c, maxLong).0;
      var t1 := c.tb.oci.Now();
      var t2 := c.tb.oci.Rest().Now();
      && Inv(r) && |r.tb.slots| == |c.tb.slots|
      && (if t1.mode == SUCCESS && c.tb.nonBlocking && t2.link == SUCCESS then
            && r.link == c.link.(stmthp := NULL)
            && forall j :: 0 <= j < |c.tb.slots| ==>
                 if c.tb.slots[j].used && c.tb.slots[j].stillExecuting
                 then ClosedFrom(c.tb.slots[j], r.tb.slots[j], maxLong)
                 else r.tb.slots[j] == c.tb.slots[j]
          else r.link == c.link && r.tb.slots == c.tb.slots)
  {
    hide CloseExecuting, ClosedFrom;
    var c4 := AskServer(AskServer(c.With(c.AsWire().Answered(c.tb.oci.Now().mode))));
    CloseExecutingOutcome(c4.tb, 0, maxLong);
    var slots := CloseExecuting(c4.tb, 0, maxLong).slots;
    forall j | 0 <= j < |slots|
      ensures SlotOk(slots[j], j)
    {
      assert SlotOk(c.tb.slots[j], j);
      if c.tb.slots[j].used && c.tb.slots[j].stillExecuting {
        ClosedFromOk(c.tb.slots[j], slots[j], j, maxLong);
      }
    }
  }

  /** What it returns and frees, for every reply: the refusal of reading the mode, SUCCESS in blocking mode,
      the refusal of OCIBreak; else the reply to the last free there is, of an executing statement or of the
      handle of `sqlo_exec`, and without one that of OCIReset. Each of these handles is freed once. */
  lemma BreakResult(c: Conn, maxLong: nat)
    requires c.Ok() && c.link.used
    ensures var r := Break(c, maxLong);
      var script := c.tb.oci.script;
      var n := |c.tb.slots|;
      var hs := ToFree(c.tb.slots, 0, n, false);
      var exec := if c.link.stmthp == NULL then multiset{} else multiset{c.link.stmthp};
      if At(script, 0).mode != SUCCESS then r.1 == At(script, 0).mode && r.0.tb.oci.freed == c.tb.oci.freed
      else if !c.tb.nonBlocking then r.1 == SUCCESS && r.0.tb.oci.freed == c.tb.oci.freed
      else if At(script, 1).link != SUCCESS then r.1 == At(script, 1).link && r.0.tb.oci.freed == c.tb.oci.freed
      else
        && r.0.tb.oci.freed == c.tb.oci.freed + multiset(hs) + exec
        && (c.link.stmthp != NULL ==> r.1 == At(script, 3 + |hs|).free)
        && (c.link.stmthp == NULL ==>
              && ((forall j :: 0 <= j < n ==> !ToClose(c.tb.slots[j], false)) ==> r.1 == At(script, 2).link)
              && (forall j :: 0 <= j < n && ToClose(c.tb.slots[j], false) && NoneAfter(c.tb.slots, j, false) ==>
                    r.1 == CloseReply(c.tb.slots, After(script, 3), 0, j, false)))
  {
    hide CloseExecuting, ToFree, CloseReply, NoneAfter, State.Ok;
    var script := c.tb.oci.script;
    var c3 := AskServer(AskServer(c.With(c.AsWire().Answered(c.tb.oci.Now().mode))));
    AfterThen(script, 1, 1);
    AfterThen(script, 2, 1);
    AfterThen(script, 3, |ToFree(c.tb.slots, 0, |c.tb.slots|, false)|);
    CloseExecutingFrees(c3.tb, 0, maxLong);
  }

  lemma ClosedFromOk(s: State, s': State, i: nat, maxLong: nat)
    requires s.Ok() && SlotOk(s, i) && ClosedFrom(s, s', maxLong)
    ensures SlotOk(s', i)
  {
  }

  // -------------------------------------------------------------------- exec

  /** When the handle of `sqlo_exec` survives a call: the execution is still running, or a newly allocated
      handle could not be prepared, or the finished handle could not be freed. In every other
      case, whatever the replies, the field is NULL again. */
  lemma ExecOutcome(w: Wire)
    requires w.link.used
    ensures var pending := w.link.stmthp != NULL;
      var alloc := w.oci.Now();
      var prepare := w.oci.Rest().Now();
      var oci := if pending then w.oci else w.oci.Rest().Rest();
      (ExecWire(w).0.link.stmthp != NULL <==>
        if !pending && alloc.alloc != SUCCESS then false
        else if !pending && prepare.prepare != SUCCESS then true
        else Survives(oci))
  {
    hide ExecuteHandle, Survives;
    if w.link.stmthp != NULL {
      ExecuteHandleOutcome(w);
    } else if Grab(w).1 != NULL {
      var w1 := Prepared(Grab(w).0.(link := w.link.(stmthp := Grab(w).1)));
      ExecuteHandleOutcome(w1);
      SurvivesByScript(w1.oci, w.oci.Rest().Rest());
    }
  }

  /** The answers to executing, counting and freeing that leave the handle in place. */
  predicate Survives(oci: Oracle) {
    var execute := oci.Now().execute;
    execute == STILL_EXECUTING
    || (execute == SUCCESS && oci.Rest().Now().local == SUCCESS && oci.Rest().Rest().Now().free != SUCCESS)
  }

  lemma SurvivesByScript(oci: Oracle, oci': Oracle)
    requires oci.script == oci'.script
    ensures Survives(oci) == Survives(oci')
  {
  }

  lemma ExecuteHandleOutcome(w: Wire)
    requires w.link.stmthp != NULL
    ensures ExecuteHandle(w).0.link.stmthp != NULL <==> Survives(w.oci)
  {
  }

  /** What `sqlo_exec` returns, for every reply: the first refusal of allocating a handle and preparing,
      which only a call without a handle does, then of executing, counting the rows and freeing; else the
      row count. The statement is executed once when that point is reached, and else not at all. */
  lemma ExecResult(w: Wire)
    requires w.link.used
    ensures var r := ExecWire(w);
      var script := w.oci.script;
      var pending := w.link.stmthp != NULL;
      var n := if pending then 0 else 2;
      var refused := !pending && (At(script, 0).alloc != SUCCESS || At(script, 1).prepare != SUCCESS);
      && r.1 ==
         (if !pending && At(script, 0).alloc != SUCCESS then At(script, 0).alloc
          else if !pending && At(script, 1).prepare != SUCCESS then At(script, 1).prepare
          else if At(script, n).execute != SUCCESS then At(script, n).execute
          else if At(script, n + 1).local != SUCCESS then At(script, n + 1).local
          else if At(script, n + 2).free != SUCCESS then At(script, n + 2).free
          else At(script, n + 1).value)
      && (r.0.status == SUCCESS || r.0.status == r.1) && (r.1 < 0 ==> r.0.status == r.1)
      && r.0.oci.executed == w.oci.executed
         + (if refused then multiset{} else if pending then multiset{w.link.stmthp} else multiset{w.oci.last + 1})
  {
    hide ExecuteHandle, Within;
    AfterThen(w.oci.script, 1, 1);
    if w.link.stmthp != NULL {
      ExecuteHandleResult(w);
    } else if Grab(w).1 != NULL {
      var w1 := Prepared(Grab(w).0.(link := w.link.(stmthp := Grab(w).1)));
      ExecuteHandleResult(w1);
      LaterAnswers(w.oci.script, 2);
    }
  }

  lemma ExecuteHandleResult(w: Wire)
    ensures var r := ExecuteHandle(w);
      var script := w.oci.script;
      && r.1 ==
         (if At(script, 0).execute != SUCCESS then At(script, 0).execute
          else if At(script, 1).local != SUCCESS then At(script, 1).local
          else if At(script, 2).free != SUCCESS then At(script, 2).free
          else At(script, 1).value)
      && (r.0.status == SUCCESS || r.0.status == r.1) && (r.1 < 0 ==> r.0.status == r.1)
      && r.0.oci.executed == w.oci.executed + multiset{w.link.stmthp}
  {
    AfterThen(w.oci.script, 1, 1);
  }

  lemma LaterAnswers(script: seq<Turn>, n: nat)
    ensures At(After(script, n), 0) == At(script, n) && At(After(script, n), 1) == At(script, n + 1)
    ensures At(After(script, n), 2) == At(script, n + 2)
  {
  }

  /** Releasing a connection forgets the handle of `sqlo_exec`: it is still there when the slot is
      connected again, and then the first statement of the new session is executed on it
      without being prepared. It is prepared exactly when the earlier session left no handle. */
  lemma StaleExecHandle(c: Conn)
    requires Picked(c) && Connect(c).1 == SUCCESS && Connect(c).0.tb.oci.Now().alloc == SUCCESS
    ensures var r := Connect(c).0;
      Exec(r).0.tb.oci.prepared
        == r.tb.oci.prepared + (if c.link.stmthp == NULL then multiset{r.tb.oci.last + 1} else multiset{})
  {
    hide Connect, ExecuteHandle;
    ConnectOutcome(c);
    var w := Connect(c).0.AsWire();
    PreparesNothing(w);
    PreparesNothing(Prepared(Grab(w).0.(link := w.link.(stmthp := Grab(w).1))));
  }

  lemma PreparesNothing(w: Wire)
    ensures ExecuteHandle(w).0.oci.prepared == w.oci.prepared
  {
  }

  /** The calls of one client that uses `sqlo_exec` and `sqlo_break` only. */
  datatype ExecOp = ExecCall | BreakCall

  function DoExec(c: Conn, op: ExecOp, maxLong: nat): (r: (Conn, int))
    requires c.Ok()
    ensures r.0.Ok()
  {
    match op
    case ExecCall => Exec(c)
    case BreakCall => Break(c, maxLong)
  }

  /** The connection after the calls, and what the latest one returned. */
  function ExecRun(c: Conn, ops: seq<ExecOp>, maxLong: nat): (r: (Conn, int))
    requires c.Ok()
    ensures r.0.Ok()
    decreases |ops|
  {
    if ops == [] then (c, SUCCESS) else DoExec(ExecRun(c, ops[..|ops| - 1], maxLong).0, ops[|ops| - 1], maxLong)
  }

  /** Prepares and frees are accepted; every other call may be refused, or busy. */
  ghost predicate ExecReplies(script: seq<Turn>) {
    forall t <- script :: t.prepare == SUCCESS && t.free == SUCCESS
  }

  /** Handles above `base` belong to `sqlo_exec`: each was prepared once, and freed once unless it is
      the one under way. */
  ghost predicate Accounts(base: Handle, w: Wire) {
    && base <= w.oci.last && w.link.used && ExecReplies(w.oci.script)
    && (w.link.stmthp == NULL || base < w.link.stmthp == w.oci.last)
    && forall h :: base < h ==>
         && w.oci.prepared[h] == (if h <= w.oci.last then 1 else 0)
         && w.oci.freed[h] == (if h <= w.oci.last && h != w.link.stmthp then 1 else 0)
  }

  /** ... and the statement slots hold none of them. */
  ghost predicate ExecInv(base: Handle, c: Conn) {
    && c.Ok() && Accounts(base, c.AsWire())
    && forall i :: 0 <= i < |c.tb.slots| ==> c.tb.slots[i].handle <= base
  }

  /** The answers from executing on, if a call of `sqlo_exec` gets there: at once when one is `pending`. */
  function ToExecute(oci: Oracle, pending: bool): Option<Oracle> {
    if pending then Some(oci)
    else if oci.Now().alloc == SUCCESS && oci.Rest().Now().prepare == SUCCESS then Some(oci.Rest().Rest())
    else None
  }

  /** A call of `sqlo_exec` ends with its execution running. */
  predicate LeftRunning(oci: Oracle, pending: bool) {
    var e := ToExecute(oci, pending); e.Some? && e.value.Now().execute == STILL_EXECUTING
  }

  /** A call of `sqlo_exec` is busy although no execution is running: allocating was, or counting the rows. */
  predicate BusyElsewhere(oci: Oracle, pending: bool) {
    if !pending && oci.Now().alloc != SUCCESS then oci.Now().alloc == STILL_EXECUTING
    else
      var e := ToExecute(oci, pending);
      e.Some? && e.value.Now().execute == SUCCESS && e.value.Rest().Now().local == STILL_EXECUTING
  }

  /** `sqlo_exec` answers STILL_EXECUTING without keeping a handle exactly when allocating one is busy, or the
      execution succeeds and counting its rows is busy. */
  lemma BusyWithoutHandle(w: Wire)
    requires w.link.used
    ensures var r := ExecWire(w);
      r.1 == STILL_EXECUTING && r.0.link.stmthp == NULL <==> BusyElsewhere(w.oci, w.link.stmthp != NULL)
  {
  }

  /** In the second case the next call prepares and executes the statement again, although it was executed. */
  lemma BusyRowCount(w: Wire)
    requires w.link.used && w.link.stmthp == NULL
      && w.oci.script == [QUIET, QUIET, QUIET, QUIET.(local := STILL_EXECUTING)]
    ensures var r := ExecWire(w);
      var again := ExecWire(r.0);
      var h := w.oci.last + 1;
      && r.1 == STILL_EXECUTING && r.0.oci.executed == w.oci.executed + multiset{h} && r.0.link.stmthp == NULL
      && 0 <= again.1 && again.0.oci.prepared == w.oci.prepared + multiset{h, h + 1}
      && again.0.oci.executed == w.oci.executed + multiset{h, h + 1}
  {
    var s := w.oci.script;
    assert Tail(s) == s[1..] && Tail(Tail(s)) == s[2..] && Tail(Tail(Tail(s))) == s[3..];
  }

  lemma ExecStep(base: Handle, w: Wire)
    requires Accounts(base, w)
    ensures var r := ExecWire(w);
      && Accounts(base, r.0)
      && (r.0.link.stmthp != NULL <==> LeftRunning(w.oci, w.link.stmthp != NULL))
      && (r.0.link.stmthp != NULL ==> r.1 == STILL_EXECUTING)
  {
    hide ExecuteHandle;
    if w.link.stmthp != NULL {
      ExecuteHandleStep(base, w);
    } else if Grab(w).1 != NULL {
      var w1 := Grab(w).0.(link := w.link.(stmthp := Grab(w).1));
      assert w1.oci.Now().prepare == SUCCESS;
      ExecuteHandleStep(base, Prepared(w1));
    }
  }

  lemma ExecuteHandleStep(base: Handle, w: Wire)
    requires Accounts(base, w) && w.link.stmthp != NULL
    ensures var r := ExecuteHandle(w);
      && Accounts(base, r.0)
      && (r.0.link.stmthp != NULL <==> w.oci.Now().execute == STILL_EXECUTING)
      && (r.0.link.stmthp != NULL ==> r.1 == STILL_EXECUTING)
  {
    var w1 := Executed(w);
    FreeHandleStep(base, w1);
    FreeHandleStep(base, w1.Answered(w1.oci.Now().local));
  }

  lemma FreeHandleStep(base: Handle, w: Wire)
    requires Accounts(base, w) && w.link.stmthp != NULL
    ensures var r := FreeHandle(w); Accounts(base, r) && r.status == SUCCESS && r.link.stmthp == NULL
  {
  }

  /** A break goes through: the mode can be read and is non-blocking, and OCIBreak is accepted. */
  predicate BreakAccepted(c: Conn) {
    c.tb.oci.Now().mode == SUCCESS && c.tb.nonBlocking && c.tb.oci.Rest().Now().link == SUCCESS
  }

  lemma BreakStep(base: Handle, c: Conn, maxLong: nat)
    requires ExecInv(base, c)
    ensures var r := Break(c, maxLong).0;
      && ExecInv(base, r)
      && r.link.stmthp == if BreakAccepted(c) then NULL else c.link.stmthp
  {
    hide FreeHandle, CloseExecuting;
    var c1 := c.With(c.AsWire().Answered(c.tb.oci.Now().mode));
    assert Accounts(base, c1.AsWire()) && Accounts(base, AskServer(c1).AsWire())
      && Accounts(base, AskServer(AskServer(c1)).AsWire());
    var c4 := AskServer(AskServer(c1)).(tb := CloseExecuting(AskServer(AskServer(c1)).tb, 0, maxLong));
    ClosingKeepsExecInv(base, AskServer(AskServer(c1)), maxLong);
    if c4.link.stmthp != NULL {
      FreeHandleStep(base, c4.AsWire());
    }
  }

  lemma ClosingKeepsExecInv(base: Handle, c: Conn, maxLong: nat)
    requires ExecInv(base, c)
    ensures c.Ok() && ExecInv(base, c.(tb := CloseExecuting(c.tb, 0, maxLong)))
  {
    hide CloseExecuting;
    CloseExecutingHandles(c.tb, 0, base, maxLong);
  }

  lemma CloseHandle(k: Cursor, maxLong: nat)
    requires k.Ok()
    ensures var r := Close(k, maxLong);
      && r.s.handle == NULL && r.oci.prepared == k.oci.prepared && r.oci.last == k.oci.last
      && (r.oci.freed == k.oci.freed || r.oci.freed == k.oci.freed + multiset{k.s.handle})
  {
  }

  /** Closing executing statements neither prepares, nor frees any handle above `base`. */
  lemma {:induction false} CloseExecutingHandles(tb: Table, i: nat, base: Handle, maxLong: nat)
    requires tb.Ok() && i <= |tb.slots| && forall j :: 0 <= j < |tb.slots| ==> tb.slots[j].handle <= base
    ensures var r := CloseExecuting(tb, i, maxLong);
      && (forall j :: 0 <= j < |r.slots| ==> r.slots[j].handle <= base)
      && r.oci.prepared == tb.oci.prepared && r.oci.last == tb.oci.last
      && forall h :: base < h ==> r.oci.freed[h] == tb.oci.freed[h]
    decreases |tb.slots| - i
  {
    hide Close;
    if i < |tb.slots| {
      var s := tb.slots[i];
      if s.used && s.stillExecuting {
        CloseHandle(tb.At(i), maxLong);
        CloseExecutingHandles(tb.Put(i, Close(tb.At(i), maxLong)), i + 1, base, maxLong);
      } else {
        CloseExecutingHandles(tb, i + 1, base, maxLong);
      }
    }
  }

  /** Whether an execution is running after the calls: the latest `sqlo_exec` left one, and no accepted break came
      after it. */
  predicate Running(c: Conn, ops: seq<ExecOp>, maxLong: nat)
    requires c.Ok()
    decreases |ops|
  {
    if ops == [] then false
    else
      var before := ops[..|ops| - 1];
      var c1 := ExecRun(c, before, maxLong).0;
      match ops[|ops| - 1]
      case ExecCall => LeftRunning(c1.tb.oci, Running(c, before, maxLong))
      case BreakCall => Running(c, before, maxLong) && !BreakAccepted(c1)
  }

  /** On every run of `sqlo_exec` and `sqlo_break`, in either blocking mode, whatever else is refused or busy: the
      handle is set exactly while an execution is running, and that is reported; STILL_EXECUTING for
      any other reason is told apart; every statement was prepared once, however often it was polled; and
      every handle was freed once, or is the one under way. */
  lemma {:induction false} ExecRuns(c: Conn, ops: seq<ExecOp>, maxLong: nat)
    requires c.Ok() && c.link.used && c.link.stmthp == NULL && ExecReplies(c.tb.oci.script)
    requires forall i :: 0 <= i < |c.tb.slots| ==> c.tb.slots[i].handle <= c.tb.oci.last
    requires forall h :: c.tb.oci.last < h ==> c.tb.oci.prepared[h] == c.tb.oci.freed[h] == 0
    ensures var r := ExecRun(c, ops, maxLong);
      && ExecInv(c.tb.oci.last, r.0) && (r.0.link.stmthp != NULL <==> Running(c, ops, maxLong))
      && (ops != [] && ops[|ops| - 1].ExecCall? ==>
            var before := ops[..|ops| - 1];
            r.1 == STILL_EXECUTING <==>
              Running(c, ops, maxLong)
              || BusyElsewhere(ExecRun(c, before, maxLong).0.tb.oci, Running(c, before, maxLong)))
    decreases |ops|
  {
    hide ExecWire, Break, LeftRunning, BusyElsewhere, BreakAccepted, ExecReplies;
    if ops != [] {
      var before := ops[..|ops| - 1];
      ExecRuns(c, before, maxLong);
      var c1 := ExecRun(c, before, maxLong).0;
      match ops[|ops| - 1]
      case ExecCall =>
        ExecStep(c.tb.oci.last, c1.AsWire());
        BusyWithoutHandle(c1.AsWire());
      case BreakCall => BreakStep(c.tb.oci.last, c1, maxLong);
    }
  }

  // ------------------------------------------------------------- whole runs

  /** The calls that reach one connection slot. Attaching and connecting reach it when `_db_add`
      picks it; `named` tells whether the server name could be worked out. */
  datatype Op =
    | AttachOp(named: bool) | ConnectOp | BeginOp | EndOp | DetachOp | FreeOp | FinishOp
    | BreakOp | ExecOp | OpenOp(sth: int32, args: seq<string>) | ReopenOp(slot: nat, args: seq<string>)
    | FetchOp(slot: nat) | CloseOp(slot: nat) | RunOp(args: seq<string>)

  /** `_db_add` reusing the slot. */
  function Pick(c: Conn): Conn {
    c.(link := c.link.(used := true))
  }

  /** The call's effect, behind the checks of CHECK_DBHANDLE and CHECK_STHANDLE. */
  function Do(c: Conn, op: Op, dbh: nat, maxLong: nat): (r: Conn)
    requires c.Ok() && dbh < MAX_DB
    ensures r.Ok()
  {
    if !c.link.used then
      match op
      case AttachOp(named) => if named then Attach(Pick(c)) else Pick(c)
      case ConnectOp => Connect(Pick(c)).0
      case _ => c
    else
      match op
      case AttachOp(_) => c
      case ConnectOp => c
      case BeginOp => SessionBegin(c).0
      case EndOp => SessionEnd(c, maxLong).0
      case DetachOp => Detach(c, maxLong).0
      case FreeOp => Free(c).0
      case FinishOp => FinishConn(c, maxLong).0
      case BreakOp => Break(c, maxLong).0
      case ExecOp => Exec(c).0
      case OpenOp(sth, args) => c.(tb := Open2(c.tb, sth, dbh, args, maxLong).tb)
      case RunOp(args) => c.(tb := RunStatement(c.tb, dbh, args, maxLong).0)
      case ReopenOp(i, args) => if InUse(c, i) then c.(tb := c.tb.Put(i, Reopen(c.tb.At(i), args, maxLong))) else c
      case FetchOp(i) => if InUse(c, i) then c.(tb := c.tb.Put(i, Fetch(c.tb.At(i)))) else c
      case CloseOp(i) => if InUse(c, i) then c.(tb := c.tb.Put(i, Close(c.tb.At(i), maxLong))) else c
  }

  predicate InUse(c: Conn, i: nat) {
    i < |c.tb.slots| && c.tb.slots[i].used
  }

  function DoAll(c: Conn, ops: seq<Op>, dbh: nat, maxLong: nat): (r: Conn)
    requires c.Ok() && dbh < MAX_DB
    ensures r.Ok()
    decreases |ops|
  {
    if ops == [] then c else Do(DoAll(c, ops[..|ops| - 1], dbh, maxLong), ops[|ops| - 1], dbh, maxLong)
  }

  /** Opening keeps every slot but at most one, and that one stays well. */
  lemma OpenNewKeeps(k: Cursor, args: seq<string>, maxLong: nat)
    requires k.Ok() && k.s.used && k.status == SUCCESS
    ensures Keeps(k.s, OpenNew(k, args, maxLong).k.s)
  {
    hide Reopen, Abandon;
    var k1 := Prepare(k);
    if k1.status != SUCCESS {
      AbandonVacates(k1, k1.status, maxLong);
    } else if k1.s.IsPlsql() {
      AbandonVacates(k1, INVALID_STMT_TYPE, maxLong);
    } else {
      var k2 := if k1.s.IsQuery() then Local(k1) else k1;
      if k2.status != SUCCESS {
        AbandonVacates(k2, k2.status, maxLong);
      } else {
        ReopenKeeps(k2, args, maxLong);
      }
    }
  }

  lemma OpenKeeps(tb: Table, sth: int32, dbh: nat, args: seq<string>, maxLong: nat)
    requires tb.Ok() && dbh < MAX_DB && SlotsOk(tb.slots)
    ensures SlotsOk(Open2(tb, sth, dbh, args, maxLong).tb.slots)
    ensures NoSlotLeftovers(tb.slots) ==> NoSlotLeftovers(Open2(tb, sth, dbh, args, maxLong).tb.slots)
  {
    hide Reopen, OpenInFreeSlot;
    var tb1 := tb.(oci := tb.oci.Rest(), status := tb.oci.Now().mode);
    if Resumes(tb, sth) {
      ReopenKeeps(tb1.At(DecodeSlot(sth)), args, maxLong);
    }
    OpenInFreeSlotKeeps(tb1, sth, dbh, args, maxLong);
  }

  lemma OpenInFreeSlotKeeps(tb: Table, sth: int32, dbh: nat, args: seq<string>, maxLong: nat)
    requires tb.Ok() && dbh < MAX_DB && SlotsOk(tb.slots)
    ensures SlotsOk(OpenInFreeSlot(tb, sth, dbh, args, maxLong).tb.slots)
    ensures NoSlotLeftovers(tb.slots) ==> NoSlotLeftovers(OpenInFreeSlot(tb, sth, dbh, args, maxLong).tb.slots)
  {
    hide OpenNew;
    if FirstFree(tb.slots) < |tb.slots| {
      var k := NewStatement(tb);
      if k.status == SUCCESS {
        OpenNewKeeps(k, args, maxLong);
      }
    }
  }

  lemma {:induction false} PollOpenKeeps(tb: Table, sth: int32, dbh: nat, args: seq<string>, maxLong: nat)
    requires tb.Ok() && dbh < MAX_DB && SlotsOk(tb.slots)
    ensures SlotsOk(PollOpen(tb, sth, dbh, args, maxLong).tb.slots)
    ensures NoSlotLeftovers(tb.slots) ==> NoSlotLeftovers(PollOpen(tb, sth, dbh, args, maxLong).tb.slots)
    decreases |tb.oci.script|
  {
    hide Open2;
    OpenKeeps(tb, sth, dbh, args, maxLong);
    var r := Open2(tb, sth, dbh, args, maxLong);
    if r.ret == STILL_EXECUTING {
      PollOpenKeeps(r.tb, r.sth, dbh, args, maxLong);
    }
  }

  lemma RunKeeps(tb: Table, dbh: nat, args: seq<string>, maxLong: nat)
    requires tb.Ok() && dbh < MAX_DB && SlotsOk(tb.slots)
    ensures SlotsOk(RunStatement(tb, dbh, args, maxLong).0.slots)
    ensures NoSlotLeftovers(tb.slots) ==> NoSlotLeftovers(RunStatement(tb, dbh, args, maxLong).0.slots)
  {
    hide PollOpen, Finish;
    PollOpenKeeps(tb, STH_INIT, dbh, args, maxLong);
    var r := PollOpen(tb, STH_INIT, dbh, args, maxLong);
    if Names(r.tb, dbh, r.sth) {
      FinishKeeps(r.tb.At(DecodeSlot(r.sth)), maxLong);
    }
  }

  /** Every call keeps the lifecycle invariant, whatever the replies. */
  lemma DoKeepsInv(c: Conn, op: Op, dbh: nat, maxLong: nat)
    requires Inv(c) && dbh < MAX_DB
    ensures Inv(Do(c, op, dbh, maxLong))
  {
    hide Attach, Connect, SessionBegin, SessionEnd, Detach, Free, FinishConn, Break, Exec, Open2, RunStatement,
      Reopen, Fetch, Close;
    if !c.link.used {
      if op.AttachOp? {
        AttachOutcome(Pick(c));
      } else if op.ConnectOp? {
        ConnectOutcome(Pick(c));
      }
    } else {
      match op
      case BeginOp => BeginOutcome(c);
      case EndOp => EndOutcome(c, maxLong);
      case DetachOp => DetachOutcome(c, maxLong);
      case FreeOp => FreeOutcome(c);
      case FinishOp => FinishKeepsInv(c, maxLong);
      case BreakOp => BreakOutcome(c, maxLong);
      case ExecOp => ExecFrame(c);
      case OpenOp(sth, args) => OpenKeeps(c.tb, sth, dbh, args, maxLong);
      case RunOp(args) => RunKeeps(c.tb, dbh, args, maxLong);
      case ReopenOp(i, args) => if InUse(c, i) { ReopenKeeps(c.tb.At(i), args, maxLong); }
      case FetchOp(i) => if InUse(c, i) { FetchKeeps(c.tb.At(i)); }
      case CloseOp(i) => if InUse(c, i) { CloseOutcome(c.tb.At(i), maxLong); }
      case _ =>
    }
  }

  lemma FetchKeeps(k: Cursor)
    requires k.Ok()
    ensures Fetch(k).s == k.s.(stillExecuting := Fetch(k).s.stillExecuting)
  {
  }

  lemma ExecFrame(c: Conn)
    requires c.Ok()
    ensures Exec(c).0.link == c.link.(stmthp := Exec(c).0.link.stmthp) && Exec(c).0.tb.slots == c.tb.slots
  {
    hide ExecWire;
  }

  lemma FinishKeepsInv(c: Conn, maxLong: nat)
    requires Inv(c)
    ensures Inv(FinishConn(c, maxLong).0)
  {
    hide SessionEnd, Detach, Free;
    EndOutcome(c, maxLong);
    if c.link.used && c.link.session {
      var e := SessionEnd(c, maxLong);
      FreeOutcome(e.0);
      DetachOutcome(e.0, maxLong);
    }
  }

  /** The lifecycle invariant holds after every run of calls, with every script of replies. */
  lemma {:induction false} RunsKeepInv(c: Conn, ops: seq<Op>, dbh: nat, maxLong: nat)
    requires Inv(c) && dbh < MAX_DB
    ensures Inv(DoAll(c, ops, dbh, maxLong))
    decreases |ops|
  {
    if ops != [] {
      RunsKeepInv(c, ops[..|ops| - 1], dbh, maxLong);
      DoKeepsInv(DoAll(c, ops[..|ops| - 1], dbh, maxLong), ops[|ops| - 1], dbh, maxLong);
    }
  }

  /** Calls that do not tear a connection down under open statements. */
  ghost predicate Tidy(c: Conn, op: Op) {
    match op
    case FreeOp => false
    case DetachOp => c.link.session
    case _ => true
  }

  /** Such calls leave nothing bound or defined in unused slots, whatever the replies. */
  lemma DoKeepsNoLeftovers(c: Conn, op: Op, dbh: nat, maxLong: nat)
    requires Inv(c) && dbh < MAX_DB && NoLeftovers(c) && Tidy(c, op)
    ensures NoLeftovers(Do(c, op, dbh, maxLong))
  {
    hide Attach, Connect, SessionBegin, SessionEnd, Detach, Free, FinishConn, Break, Exec, Open2, RunStatement,
      Reopen, Fetch, Close, ClosedFrom;
    if !c.link.used {
      if op.AttachOp? {
        AttachOutcome(Pick(c));
      } else if op.ConnectOp? {
        ConnectOutcome(Pick(c));
      }
    } else {
      match op
      case BeginOp => BeginOutcome(c);
      case EndOp => EndOutcome(c, maxLong);
      case DetachOp => DetachEmpties(c, maxLong);
      case FinishOp => FinishNeedsSession(c, maxLong); if c.link.session { FinishOutcome(c, maxLong); }
      case BreakOp => BreakKeepsNoLeftovers(c, maxLong);
      case ExecOp => ExecFrame(c);
      case OpenOp(sth, args) => OpenKeeps(c.tb, sth, dbh, args, maxLong);
      case RunOp(args) => RunKeeps(c.tb, dbh, args, maxLong);
      case ReopenOp(i, args) => if InUse(c, i) { ReopenKeeps(c.tb.At(i), args, maxLong); }
      case FetchOp(i) => if InUse(c, i) { FetchKeeps(c.tb.At(i)); }
      case CloseOp(i) => if InUse(c, i) { CloseOutcome(c.tb.At(i), maxLong); }
      case _ =>
    }
  }

  lemma DetachEmpties(c: Conn, maxLong: nat)
    requires Inv(c) && c.link.session && NoLeftovers(c)
    ensures NoLeftovers(Detach(c, maxLong).0)
  {
    hide SessionEnd, DbRelease;
    EndOutcome(c, maxLong);
    var e := SessionEnd(c, maxLong);
    ReleaseOutcome(AskServer(e.0));
  }

  lemma BreakKeepsNoLeftovers(c: Conn, maxLong: nat)
    requires Inv(c) && c.link.used && NoLeftovers(c)
    ensures NoLeftovers(Break(c, maxLong).0)
  {
    hide Break, ClosedFrom;
    BreakOutcome(c, maxLong);
    var slots := Break(c, maxLong).0.tb.slots;
    forall j | 0 <= j < |slots| && !slots[j].used
      ensures slots[j].binds.num == 0 && slots[j].defs.num == 0
    {
      if c.tb.slots[j].used && c.tb.slots[j].stillExecuting {
        ClosedFromEmpty(c.tb.slots[j], slots[j], maxLong);
      }
    }
  }

  lemma ClosedFromEmpty(s: State, s': State, maxLong: nat)
    requires s.Ok() && ClosedFrom(s, s', maxLong)
    ensures s'.binds.num == 0 && s'.defs.num == 0
  {
  }

  /** So in every run of such calls no statement slot is ever recycled with stale defines, and the
      first execution of a query is never skipped. */
  lemma {:induction false} TidyRuns(c: Conn, ops: seq<Op>, dbh: nat, maxLong: nat)
    requires Inv(c) && dbh < MAX_DB && NoLeftovers(c)
    requires forall n :: 0 <= n < |ops| ==> Tidy(DoAll(c, ops[..n], dbh, maxLong), ops[n])
    ensures NoLeftovers(DoAll(c, ops, dbh, maxLong))
    decreases |ops|
  {
    if ops != [] {
      var before := ops[..|ops| - 1];
      forall n | 0 <= n < |before|
        ensures Tidy(DoAll(c, before[..n], dbh, maxLong), before[n])
      {
        assert before[..n] == ops[..n];
      }
      TidyRuns(c, before, dbh, maxLong);
      RunsKeepInv(c, before, dbh, maxLong);
      DoKeepsNoLeftovers(DoAll(c, before, dbh, maxLong), ops[|ops| - 1], dbh, maxLong);
    }
  }

  /** Calls that neither open nor execute a statement record no execution. */
  ghost predicate SameExecuted(oci: Oracle, oci': Oracle) {
    oci'.executed == oci.executed
  }

  lemma DiscardExecutes(oci: Oracle, h: Handle)
    ensures SameExecuted(oci, Discard(oci, h))
  {
  }

  lemma DiscardAllExecutes(oci: Oracle, l: Link)
    ensures SameExecuted(oci, DiscardAll(oci, l))
  {
    hide Discard, Within;
    var o1 := Discard(oci, l.srvhp);
    var o2 := Discard(o1, l.svchp);
    var o3 := Discard(o2, l.errhp);
    var o4 := Discard(o3, l.authp);
    DiscardExecutes(oci, l.srvhp);
    DiscardExecutes(o1, l.svchp);
    DiscardExecutes(o2, l.errhp);
    DiscardExecutes(o3, l.authp);
    DiscardExecutes(o4, l.envhp);
  }

  lemma ReleaseExecutes(c: Conn)
    requires c.Ok()
    ensures SameExecuted(c.tb.oci, DbRelease(c).tb.oci)
  {
    hide DbRelease, DiscardAll;
    DbReleaseParts(c);
    DiscardAllExecutes(c.tb.oci, c.link);
  }

  lemma FreeExecutes(c: Conn)
    requires c.Ok() && c.link.used
    ensures SameExecuted(c.tb.oci, Free(c).0.tb.oci)
  {
    hide DbRelease;
    ReleaseExecutes(if c.link.attached then AskServer(c) else c);
  }

  lemma AttachExecutes(w: Wire)
    ensures SameExecuted(w.oci, AttachWire(w).0.oci)
  {
    hide Within, AttachServer, Grab;
    var g1 := Grab(w);
    GrabExecutes(w);
    var w1 := g1.0.(link := w.link.(envhp := g1.1));
    var g2 := Grab(w1);
    GrabExecutes(w1);
    var w2 := g2.0.(link := w1.link.(svchp := g2.1));
    var g3 := Grab(w2);
    GrabExecutes(w2);
    var w3 := g3.0.(link := w2.link.(errhp := g3.1));
    GrabExecutes(w3);
    AttachServerExecutes(Grab(w3).0.(link := w3.link.(srvhp := Grab(w3).1)));
  }

  lemma GrabExecutes(w: Wire)
    ensures SameExecuted(w.oci, Grab(w).0.oci)
  {
  }

  lemma AttachServerExecutes(w: Wire)
    ensures SameExecuted(w.oci, AttachServer(w).0.oci)
  {
  }

  lemma {:induction false} PollExecutes(w: Wire)
    ensures SameExecuted(w.oci, PollBegin(w).oci) && SameExecuted(w.oci, PollLocal(w).oci)
    decreases |w.oci.script|
  {
    var t := w.oci.Now();
    if t.link == STILL_EXECUTING || (t.link == ERROR && t.value == BUSY_CODE) {
      PollExecutes(w.Answered(t.link));
    }
    if t.local == STILL_EXECUTING {
      PollExecutes(w.Answered(t.local));
    }
  }

  lemma BeginExecutes(w: Wire)
    ensures SameExecuted(w.oci, BeginWire(w).0.oci)
  {
    hide PollBegin, PollLocal, Within;
    var w1 := w.Answered(w.oci.Now().local);
    var w2 := w1.Answered(w1.oci.Now().local);
    PollExecutes(w2);
    PollExecutes(PollBegin(w2));
  }

  lemma ConnectExecutes(c: Conn)
    requires Picked(c)
    ensures SameExecuted(c.tb.oci, Connect(c).0.tb.oci)
  {
    hide AttachWire, DbRelease, SessionBegin, Free;
    var a := Attach(c);
    AttachExecutes(c.AsWire());
    ReleaseExecutes(c.With(AttachWire(c.AsWire()).0));
    SessionExecutes(a);
    if SessionBegin(a).0.link.used {
      FreeExecutes(SessionBegin(a).0);
    } else {
      FreesNothing(SessionBegin(a).0);
    }
  }

  lemma SessionExecutes(c: Conn)
    requires c.Ok()
    ensures SameExecuted(c.tb.oci, SessionBegin(c).0.tb.oci)
  {
    hide BeginWire;
    BeginExecutes(c.AsWire());
  }

  lemma FreesNothing(c: Conn)
    requires c.Ok() && !c.link.used
    ensures Free(c).0 == c
  {
  }

  /** The first statement is an open query. */
  ghost predicate FirstIsOpen(c: Conn) {
    c.tb.slots != [] && c.tb.slots[0].used && c.tb.slots[0].isOpen && c.tb.slots[0].IsQuery()
  }

  /** An untidy run: a connection freed under its statements, connected again, and a query opened that is
      accepted up to its execution. It is executed exactly when the statement that was in the first slot
      had no defines; otherwise it is reported open although no server ever executed it. */
  lemma StaleRun(c: Conn, dbh: nat, args: seq<string>, maxLong: nat)
    requires Inv(c) && dbh < MAX_DB && c.link.used && c.tb.slots != []
    requires var c2 := Do(Do(c, Op.FreeOp, dbh, maxLong), ConnectOp, dbh, maxLong);
      c2.link.session && c2.tb.oci.Now().mode == SUCCESS && Replies.QueryBound(Tail(c2.tb.oci.script), |args|).Some?
    ensures var c2 := Do(Do(c, Op.FreeOp, dbh, maxLong), ConnectOp, dbh, maxLong);
      var c3 := Do(c2, OpenOp(STH_INIT, args), dbh, maxLong);
      var stale := c.tb.slots[0].defs.num != 0;
      && c3.tb.oci.executed == c.tb.oci.executed + (if stale then multiset{} else multiset{c2.tb.oci.last + 1})
      && (stale ==> Open2(c2.tb, STH_INIT, dbh, args, maxLong).ret == SUCCESS && FirstIsOpen(c3))
  {
    hide Free, Connect, Open2, State.Ok, FirstFree, Encode;
    Reconnected(c);
    var c2 := Connect(Pick(Free(c).0)).0;
    assert Do(Do(c, Op.FreeOp, dbh, maxLong), ConnectOp, dbh, maxLong) == c2;
    Polls.StaleOpen(c2.tb, dbh, args, maxLong);
  }

  lemma Reconnected(c: Conn)
    requires Inv(c) && c.link.used && c.tb.slots != []
    ensures var c1 := Free(c).0;
      var c2 := Connect(Pick(c1)).0;
      c.Ok() && !c1.link.used && Pick(c1).Ok() &&
      (c2.link.session ==>
         && c2.Ok() && c2.link.used && SameArrays(c, c2) && SameExecuted(c.tb.oci, c2.tb.oci)
         && FirstFree(c2.tb.slots) == 0)
  {
    hide Free, Connect, State.Ok;
    var c1 := Free(c).0;
    FreeOutcome(c);
    ConnectOutcome(Pick(c1));
    FreeExecutes(c);
    ConnectExecutes(Pick(c1));
  }
}
