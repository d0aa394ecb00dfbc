/** The Oracle Call Interface seen from the library: status codes, and an oracle that
    answers every call. Nothing is known about its answers: they come from a finite
    script, one record per call, holding what the environment would answer to each kind
    of call at that moment. After the script the environment is quiet: every call succeeds. */
module Oci {

  const SUCCESS := 0
  const ERROR := -1
  const STILL_EXECUTING := -3123
  const NEED_DATA := 99
  const NO_DATA := 100

  /** The error code that stands for STILL_EXECUTING when a call only replies ERROR. */
  const BUSY_CODE := 3123

  const INVALID_DB_HANDLE := -30001
  const ERRMALLOC := -30002
  const INVALID_STMT_HANDLE := -30003
  const INVALID_STMT_TYPE := -30005
  const STMT_NOT_PARSED := -30006
  const UNSUPPORTED_DATA_TYPE := -30012

  /** An OCI pointer; NULL is 0. */
  type Handle = nat
  const NULL: Handle := 0

  /** Database types of a select-list column, as `_calc_obuf_size` tells them apart. */
  datatype DbType = Numeric | Character | RowId | DateTime | Long | LobType | OtherType

  type ub1 = x: nat | x < 0x100
  type ub2 = x: nat | x < 0x1_0000

  /** What the server describes of one select-list column. */
  datatype Column = Column(dbType: DbType, prec: ub1, scale: ub1, dbsize: ub2, name: string)

  const BLANK := Column(OtherType, 0, 0, 0, "")

  /** What OCIDefineByPos is told for one column: the element index in the define arrays,
      which allocation of those arrays it lies in, and the size of the output buffer. */
  datatype Address = Address(generation: nat, index: nat, size: nat)

  /** The answers the environment has ready at one moment. `mode` is the answer to
      reading the blocking attribute, `local` to other calls that only touch client-side
      data (get and set attributes, describe, define), `link` to
      attach, detach, session begin and end, break and reset. `value` and `col` are the
      output of the call, when it has one. */
  datatype Turn = Turn(alloc: int, free: int, prepare: int, bind: int, execute: int, fetch: int,
                       mode: int, local: int, link: int, value: nat, col: Column)

  const QUIET := Turn(SUCCESS, SUCCESS, SUCCESS, SUCCESS, SUCCESS, SUCCESS, SUCCESS, SUCCESS, SUCCESS, 0, BLANK)

  /** The environment of one connection, and what the library has asked of it so far. */
  datatype Oracle = Oracle(
    script: seq<Turn>,
    last: Handle,                              // the handle allocated last
    prepared: multiset<Handle>,                // OCIStmtPrepare calls
    executed: multiset<Handle>,                // OCIStmtExecute calls
    bound: multiset<(Handle, nat)>,            // successful binds of a position
    freed: multiset<Handle>,                   // OCIHandleFree calls on statement handles
    columns: map<Handle, nat>,                 // select-list length reported for a statement
    defined: map<(Handle, nat), Address>)      // successful defines of a position
  {
    function Now(): Turn {
      Next(script)
    }

    /** Done with the present answers. */
    function Rest(): (o: Oracle)
      ensures Within(o.script, script)
      ensures Now() != QUIET ==> |o.script| < |script|
    {
      this.(script := Tail(script))
    }
  }

  /** The answers ready now. */
  function Next(script: seq<Turn>): Turn {
    if script == [] then QUIET else script[0]
  }

  /** The answers `n` calls later. */
  function At(script: seq<Turn>, n: nat): Turn {
    if n < |script| then script[n] else QUIET
  }

  function Tail(script: seq<Turn>): (s: seq<Turn>)
    ensures Within(s, script) && (script != [] ==> |s| < |script|)
  {
    if script == [] then [] else script[1..]
  }

  /** The answers from `n` calls later on. */
  function After(script: seq<Turn>, n: nat): (s: seq<Turn>)
    ensures Next(s) == At(script, n)
  {
    if n < |script| then script[n..] else []
  }

  /** Calls and then more calls. */
  lemma AfterThen(script: seq<Turn>, m: nat, n: nat)
    ensures After(After(script, m), n) == After(script, m + n) && At(After(script, m), n) == At(script, m + n)
    ensures Tail(script) == After(script, 1) && After(script, 0) == script
  {
  }

  /** `later` holds no answer that `earlier` did not, and is no longer. */
  ghost predicate Within(later: seq<Turn>, earlier: seq<Turn>) {
    |later| <= |earlier| && forall t <- later :: t in earlier
  }
}
