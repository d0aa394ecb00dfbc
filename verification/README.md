# A model of libsqlora8

libsqlora8 is a C library over the Oracle Call Interface. It keeps a table of connections,
each with a table of statements, hands out integer handles for both, and resumes calls
that a non-blocking server connection answers with STILL_EXECUTING. This project models its handle
manager, its non-blocking protocol, the life of a connection, LOB streaming and the connect-string
parser, and proves what they keep and what they achieve, for every behaviour of the server.

## How it is built

OCI is an oracle. `Oci.dfy` gives each connection a finite script of replies, with nothing assumed
about them, and a record of what the library asked: prepares, executions, binds, frees, and the addresses given to
OCI. A theorem about all scripts is a theorem about all servers.

Each operation appears twice. A function on values says what it does: a statement slot
(`Cursor.dfy`), a table of slots (`CursorTable.dfy`), a connection (`Connection.dfy`), a LOB and its pieces
(`Lob.dfy`). A method on objects does it step by step, as the C code does, updating fields in
place (`Statement.dfy`, `ConnectionObject.dfy`, `Library.dfy`, the second half of `Lob.dfy`), and
is proved equal to the function for every state and every reply. The theorems are lemmas about the
functions. For opening, polling and running statements there is a third account, `Replies.dfy`: what a script of
replies comes to, read off the script alone, without slots, arrays or handles. `Polling.dfy` proves, for every
table and every script, that the code ends as that account says, and draws the exact conditions
from it. `Handles.dfy` holds the handle macros, `ConnectString.dfy` the parser with its
buffers, `SlotOwnership.dfy` the interleavings of threads in `_db_add` and `_db_release`.

`Library.Sqlora.Valid` is the invariant of the whole library; every public method keeps it. What a method may touch is in its
`modifies` clause: `Frame(dbh)` is one connection and its statements, so every other connection is
unchanged; `Spare()` is what is not in use.

## Where the code differs from its documentation, or from what one expects

The model follows the code; each point is a lemma.

- The documented form uid@tnsname (sqlora.h:1010) does not give a server name: without "/" all of it is the user name (`WrittenWhenSeparated`).
- `bufsize` is documented as the capacity of the buffers (sqlora.h:1018); a part of exactly that length is accepted and writes one character beyond (`SplitCstring` gives the condition, `OneTooSmall` and `ScottTooSmall` inputs).
- A failed attach returns 0, since releasing the slot clears the status (`AttachOutcome` gives the seven replies, `RefusedAttach` an input); `sqlo_connect` still fails (`ConnectOutcome`).
- After such an attach `sqlo_connect` goes on to begin a session on the released slot and to free it; if another thread was given the slot in between, it loses its connection (`StaleRelease`).
- Attach splits its argument again when it contains "/" or "@", so a name like host/service is replaced by ORACLE_SID (`ServerNameKept`); if it cannot be split, the slot stays taken (`Library.Sqlora.ServerAttach`).
- A failed bind closes the statement, which resets the status: `sqlo_open2` reports SUCCESS for a slot given back (`OneStatement`, `BindArgvOutcome`, and `RefusedBind` with an input).
- A query is executed before its columns are described. If describing or defining is busy, the next call executes it again and opens it without the missing columns (`AllColumnsExactly`, `BusyCountReexecutes`, `CountedTooLate`).
- When preparing, or anything else before a statement runs, is busy, `sqlo_open2` answers STILL_EXECUTING without a handle, and the next call prepares the same text on another one (`OneStatement` gives the condition, `PreparedTwice` an input).
- `sqlo_reopen` without arguments, of what is not a query, is open or not by the status the connection's last call left (`ReopenPlain`).
- A mode that cannot be read, or is read as blocking, strands a pending statement (`ResumesExactly`, `StrandedExactly`, `StrandedByMode`).
- The close of a failed `_sqlo_reopen` is not repeated when it is busy, so `sqlo_run` loses the slot (`RunOutcome`, `RunLosesExactly`, `LostByBusyClose`).
- A busy row count makes `sqlo_exec` answer STILL_EXECUTING and drop its handle, so the next call runs the statement again (`BusyWithoutHandle`, `BusyRowCount`).
- `sqlo_finish` without a session does nothing and reports SUCCESS (`FinishNeedsSession`).
- `sqlo_server_free` under open statements leaves defines in recycled slots (`FreeOutcome`), which makes a later query skip its first execution (`StaleDefinesSkipExecution`, and `StaleRun` as a whole run); runs that avoid it never do (`TidyRuns`).
- Releasing a connection forgets a handle of `sqlo_exec`, on which the next session's first statement runs without being prepared (`StaleExecHandle`).
- `sqlo_lob_write_stream` loses a late refusal above zero where OCILobClose exists (`SuccessMeansStored`, `LostRefusal`).

## Model

| member | source | states |
|---|---|---|
| Handles.RoundTrip | sqlora.c:155-158 | An encoded statement handle is never negative and decodes to the connection and the slot it was made from, within the limits `sqlo_init` imposes |
| Handles.Injective | sqlora.c:155-155 | Two statements never share a handle |
| Handles.RejectedRange | sqlora.c:157-158 | A value decodes to a connection number no table can have if and only if it lies in [-65536, -1] or from 0x7fff0000 up |
| Handles.BitwiseIsArithmetic | sqlora.c:155-158 | Encoding with shift and or, and decoding what was encoded, is the sum, remainder and quotient used by the model |
| Handles.DecodingIsArithmetic | sqlora.c:157-158 | On every 32-bit pattern the decoding shifts and masks are remainder and quotient |
| Handles.TwosComplement | sqlora.c:157-158 | For negative handles too, decoding is that of the 32-bit pattern |
| Library.Sqlora.NegativeHandlesRejected | sqlora.c:4109-4136 | In every valid state SQLO_STH_INIT and every value down to -65536, so every negative status code, names no statement |
| Library.Sqlora.HandleFinds | sqlora.c:4109-4136 | The handle encoded from a statement in its place names exactly that statement while it is in use and nothing afterwards |
| Statements.AmortisedGrowth | sqlora.c:2044-2111 | Binding n parameters one after another, whatever OCI replies, keeps the accepted ones in order, never holds more than 2n entries and copies fewer than 2n elements over all reallocations; the spare entries are zero unless an array bind was half accepted |
| Statements.GrowingKeepsBinds | sqlora.c:2044-2111 | Growing the bind arrays keeps every entry and adds zeros; room that is there is left alone |
| Statements.ResetClears | sqlora.c:1831-1845 | After a reset nothing is bound and no handle of an earlier bind is left; the indicators and the room stay |
| Statements.Statement.AllocBindp | sqlora.c:2044-2111 | The bind arrays afterwards are the grown arrays, old entries kept and new ones zero, counters untouched |
| Statements.Statement.BindpvReset | sqlora.c:1831-1845 | Every bind handle up to the counter is cleared, the counter is zero, nothing else changes |
| Statements.Statement.AllocDefinep | sqlora.c:2168-2282 | All eight define arrays grow together; new entries are zero, except the column names |
| Statements.GrowingKeepsDefines | sqlora.c:2168-2282 | Growing the eight define arrays keeps every entry, adds zeros and is one more allocation |
| Statements.BufferNeed | sqlora.c:3378-3452 | The bytes asked for a value of each database type, exactly; only LOB types are refused |
| Statements.Statement.AllocOcolBuffer | sqlora.c:3961-4012 | The buffer of one column, its recorded size and its memory afterwards; no other column changes |
| Statements.BufferGrows | sqlora.c:3961-4012 | A new buffer has the size asked for, one too small is replaced by twice what is asked, short of LONG; one that will do stays, recorded with the size asked for |
| Statements.BuffersFit | sqlora.c:3961-4012 | Over any sequence of reserving, defining (accepted or refused), closing, recycling and ending a session with any column types, each defined column has a recorded size of at least what was asked and at most what is allocated |
| Statements.Statement.DropOutputs | sqlora.c:5709-5718 | Closing gives up the buffers of LONG size, keeps the others with their recorded sizes, and clears every define handle |
| Statements.DroppingKeeps | sqlora.c:5709-5718 | Of the buffers in use those of LONG size are gone, all others keep their memory and size; no define handle is left |
| Statements.Statement.Release | sqlora.c:1738-1751 | All five flags and counters are down, every other field as before |
| Statements.Statement.Init | sqlora.c:1933-1968 | The slot taken: in use, knowing its index, all flags down, its arrays kept for recycling |
| Cursors.DefineFromOutcome | sqlora.c:4148-4224 | Once space for the columns is reserved, no step of the column loop reallocates; it succeeds if and only if the describing and defining replies of every column do, and then every column has an address in the current arrays and a large enough buffer |
| Cursors.DefineAllOutcome | sqlora.c:4193-4223 | All reported columns end defined if and only if the count, the eighteen describing calls and the define of each column are accepted; prepares, binds, frees and handles are untouched |
| Cursors.DefineColumnOutcome | sqlora.c:4027-4093 | Defining one column changes that column only, and leaves OCI with its current address, size and type |
| Cursors.DefineByPosOutcome | sqlora.c:3226-3300 | For any position and for arrays too: success if and only if OCI accepts; then the address told to OCI is element p of the current arrays and the counter covers it; no other column changes |
| Cursors.DefineUnparsed | sqlora.c:3226-3300 | Defining on a statement that is not parsed asks nothing and says so |
| Cursors.BindFromReplies | sqlora.c:3316-3358 | Binding argument by argument goes by the replies to binding, one for each argument up to the first refusal |
| Cursors.BindFromOutcome | sqlora.c:3316-3358 | Binding argument by argument binds each position at most once; all of them are bound if and only if it succeeds |
| Cursors.BindFromFills | sqlora.c:3341-3345 | For every argument reached, the refused one included, the indicator is -1 exactly where the text is empty and else 0; for every accepted one the entry holds the handle OCI replied; earlier entries stay |
| Cursors.BindArgvOutcome | sqlora.c:3316-3358 | Binding a whole argument list succeeds if and only if the next replies to binding, one for each argument, are SUCCESS, and if and only if every position is bound; indicators and handles are as the arguments and replies say |
| Cursors.BindByPosOutcome | sqlora.c:2950-3027 | Any position: not parsed and nothing asked, or bound if and only if OCI accepts, for an array twice, no other entry changed |
| Cursors.BindByNameOutcome | sqlora.c:6502-6585 | Not parsed and nothing asked, or the next entry is taken if and only if OCI accepts, for an array twice; the returned status is the first refusal; earlier entries stay |
| Cursors.CloseOutcome | sqlora.c:5684-5732 | Closing succeeds if and only if there is no OCI handle or freeing it is accepted; then the slot is given back with nothing bound or defined, else it stays taken without a handle |
| Cursors.CloseFrees | sqlora.c:5720-5732 | Closing frees the handle once, if there is one, and returns the reply |
| Cursors.ReopenOutcome | sqlora.c:4489-4612 | Reopening a prepared statement not executed before ends as its replies say, for every reply: open, with or without all columns, under way, given back, or with the slot taken but its statement gone; it never prepares again and binds all arguments if and only if their replies are SUCCESS |
| Cursors.ReopenAgainOutcome | sqlora.c:5417-5428 | Polling `sqlo_reopen` on a query that was open before binds the arguments once, prepares nothing, and ends open with all its columns still defined if and only if the binds and the first execution that is not busy are accepted; a refused execution gives the slot back, a refused bind closes with the status of the close |
| Cursors.ReopenPlain | sqlora.c:4489-4612 | Reopening what is not a query executes nothing: bound, it is open; without arguments it goes by the status the last call left; a refused bind closes it |
| Cursors.ReopenFills | sqlora.c:4503-4515 | A statement that runs or is open has in its bind arrays what its arguments say |
| Cursors.LaunchOutcome | sqlora.c:4534-4612 | The execute half of reopening a query not executed before, or interrupted, ends as its replies say, for every reply; the query is open with all its columns defined exactly when the describing and defining calls after its first successful execution are accepted |
| Cursors.Relaunch | sqlora.c:4557-4612 | The execute half on a query that was open before: open again with all its columns, under way, or closed for good, as the one reply says |
| Cursors.BusyCountReexecutes | sqlora.c:4167-4203 | A query whose column count was busy is executed a second time and then open with no column defined |
| Cursors.ExecutesOnce | sqlora.c:4148-4224 | A query never executed before is executed at most once more by defining its output |
| Cursors.RefCursorDefines | sqlora.c:4167-4190 | A cursor by reference is marked open and defined without being executed |
| Cursors.StaleDefinesSkipExecution | sqlora.c:4160-4162 | Counterexample and exact condition: with defines left from an earlier session the first execution is skipped and the query reported open; without them the server is asked to execute it |
| ConnectionObjects.Connection.FindFreeStatement | sqlora.c:1878-1923 | Finds the first slot not in use, or the end of the table |
| ConnectionObjects.Connection.StmtNew | sqlora.c:1981-2024 | Takes the first free slot and gives it an OCI handle; with no slot free, ERRMALLOC and nothing changed; every other slot as before |
| ConnectionObjects.Connection.Prepare | sqlora.c:4430-4467 | One OCIStmtPrepare, the prepared flag and the statement type as OCI replied |
| ConnectionObjects.Connection.BindByPos | sqlora.c:2950-3027 | One position bound, growing the arrays to it, with the second call for an array; or the statement not parsed, or a refusal returned |
| ConnectionObjects.Connection.BindByName | sqlora.c:6502-6585 | The next free entry bound, growing the arrays only when there is none, with the second call for an array; or the statement not parsed, or a refusal that takes no entry |
| Library.Sqlora.BindByName | sqlora.c:6502-6585 | An invalid handle is rejected; a valid one binds on its statement, and nothing but that statement and its conversation changes |
| ConnectionObjects.Connection.BindArgv | sqlora.c:3316-3358 | The loop over the arguments, stopping at the first refusal |
| ConnectionObjects.Connection.DefineByPos | sqlora.c:3226-3300 | One position defined, growing the arrays if needed, with the second call for an array |
| ConnectionObjects.Connection.DefineOcolByPos | sqlora.c:4027-4093 | One column described attribute by attribute, each refusal leaving what was stored before it, then given its buffer and defined |
| ConnectionObjects.Connection.DefineOutput | sqlora.c:4148-4224 | Execute to describe, then define all columns; nothing when defines exist already |
| ConnectionObjects.Connection.DefineColumns | sqlora.c:4193-4223 | The column loop, stopping at the first refusal |
| ConnectionObjects.Connection.CloseStatement | sqlora.c:5684-5732 | The slot, the status and the calls after closing, for every reply |
| Library.Sqlora.Close | sqlora.c:5684-5732 | An invalid handle changes nothing and is reported; a valid one closes its statement, and nothing but that statement and the conversation of its connection changes |
| Library.Sqlora.CloseHandle | sqlora.c:5684-5732 | Closing through any value of the handle keeps every invariant of the library |
| Library.Sqlora.CloseEncoded | sqlora.c:4235-4248 | Closing a statement through its own encoded handle reaches that statement, and is harmless once it is released |
| Library.Sqlora.Reopen | sqlora.c:4489-4612 | The reopened slot and the status, for every reply; on every failing exit the slot has been closed through its handle |
| Library.Sqlora.Launch | sqlora.c:4534-4612 | The execute half of reopening, step by step, for every reply; failures close the slot through its handle, once more at the common exit when an execution fails |
| Library.Sqlora.OpenNew | sqlora.c:5369-5408 | From a fresh statement on: the slot, the status and whether the caller gets a handle |
| Library.Sqlora.CloseTwice | sqlora.c:389-401 | Closing as the argument of a macro that evaluates it twice |
| Library.Sqlora.Open2 | sqlora.c:5303-5410 | The table, the status and the handle after one call, for every reply; no other connection changes and the library stays valid |
| Replies.BindsAccepted | sqlora.c:3316-3358 | All binds are accepted if and only if the next n replies to binding are SUCCESS |
| Polls.OpenNewOutcome | sqlora.c:5369-5408 | Opening a fresh statement ends as its replies say, for every reply; it is prepared once, no argument is bound twice, and when it runs or is open all are, with the indicators and handles that arguments and replies say |
| Polls.PollOutcome | sqlora.c:5303-5410 | Polling to the end, from wherever it stands and for every script of replies, ends as the replies say: the status, what the returned handle names, whether all columns are defined, and whether a slot is left taken that the handle does not name |
| Polls.NonBlockingOpen | sqlora.c:5303-5410 | Main result, for every table with a free slot and every script of replies: polling from SQLO_STH_INIT ends as the replies say, every statement handle is prepared once and no argument of it bound twice, and every slot in use before keeps every field |
| Polls.PollAccounted | sqlora.c:5303-5410 | However often a statement is polled, each OCI handle it takes is prepared once and no argument is bound twice on one |
| Polls.OneStatement | sqlora.c:5303-5410 | Main result, through any number of STILL_EXECUTING replies: the text is prepared at most once if and only if the replies never make an attempt give up a handle and get another; unless a close was refused, one slot is touched, and it is in use if and only if the last attempt opened it; an open statement has every argument bound once on its handle, with its indicator; SUCCESS with the slot given back means a refused bind |
| Polls.PreparedTwice | sqlora.c:5374-5381 | A concrete busy prepare: STILL_EXECUTING without a handle, and the next call prepares the same text on another one |
| Polls.AllColumnsExactly | sqlora.c:5303-5410 | Main result: polling ends with a query open and all its columns defined if and only if its first execution that is not busy succeeds and the describing and defining calls after it do; if one of those is busy, it ends open without them if and only if the repeated execution succeeds |
| Replies.OpensCompletely | sqlora.c:4489-4612 | The same on the replies alone, without slots, arrays or handles |
| Polls.PendingColumnsExactly | sqlora.c:5340-5367 | The same for a query already under way |
| Polls.ResumesExactly | sqlora.c:5332-5367 | A call on a query under way resumes it, executing it once more, if and only if the mode read says non-blocking; else the pending slot keeps every field |
| Polls.StrandedExactly | sqlora.c:5332-5367 | Main result: polling leaves a query under way pending for good if and only if the first mode reply that is neither STILL_EXECUTING nor lets it resume comes before the query is done (except that a following attempt that bounces lets polling go on) |
| Replies.StrandsExactly | sqlora.c:5332-5367 | The same on the replies alone |
| Polls.StrandedByMode | sqlora.c:5332-5335 | Two concrete inputs: an unreadable mode, and a reply above zero with something other than SQLO_OFF in the variable |
| Polls.RefusedBind | sqlora.c:4505-4515 | A concrete refused bind: SUCCESS, and the slot given back |
| Polls.CountedTooLate | sqlora.c:4167-4203 | A concrete query that ends open without its columns |
| Polls.StaleOpen | sqlora.c:5369-5408 | The first call for a query has it executed if and only if its slot holds no defines; otherwise it is reported open at once |
| Polls.PollAnswer | sqlora.c:5303-5410 | What polling tells the caller, in either mode, for every table and every script of replies, from wherever it stands: the status, and whether the handle names an open statement, with or without columns, one under way, one that is gone, or none |
| CursorTables.AbandonVacates | sqlora.c:389-401 | The error exits evaluate the closing call twice, so the slot is given back even when freeing its handle is refused |
| Library.Sqlora.Fetch | sqlora.c:5435-5514 | The status and the still-executing flag after one fetch or execution |
| Library.Sqlora.Prows | sqlora.c:5558-5598 | The row count of an opened statement, or the error |
| Library.Sqlora.Run | sqlora.c:5057-5107 | The table and the result of running a statement to its end, for every reply; the library stays valid |
| Polls.RunResult | sqlora.c:5057-5107 | Main result, for every table, either mode and every script of replies: what `sqlo_run` returns, read off the replies alone: the error of opening, INVALID_STMT_HANDLE for a handle that names nothing, the error of fetching or executing, else the row count or what counting replied |
| CursorTables.FetchOutcome | sqlora.c:5435-5514 | One fetch returns its reply, and the flag `sqlo_break` goes by is up after STILL_EXECUTING, down after success or the end of a query, and else as it was |
| CursorTables.PollFetchOutcome | sqlora.c:5091-5095 | Fetching to the end goes by the replies; the flag stays up only if a busy fetch, or one before, ended in a refusal |
| Polls.RunOutcome | sqlora.c:5057-5107 | Main result, for every table with a free slot and every script of replies: the slots in use before keep every field, and a slot is left taken if and only if a close of a failed `_sqlo_reopen` or the final close met a refusal nobody repeated, or polling left a statement behind |
| Polls.RunLosesExactly | sqlora.c:5057-5107 | In non-blocking mode, on the replies alone: a slot is lost if and only if a refused close in `_sqlo_reopen` cost it and no final close could repeat it, or the final close of an opened statement was refused for good |
| Replies.LosesExactly | sqlora.c:4489-4612 | The first half of it: what follows a refused close, told from the replies |
| Polls.RunLosesInOpening | sqlora.c:5057-5107 | With frees accepted or busy the final close loses nothing; only the opening phase can |
| Polls.RunConservesSlots | sqlora.c:5057-5107 | Main result: with frees accepted, whatever opening, binding, fetching and counting reply and however often they are busy, every slot but the first free one is untouched and that one is idle again |
| Polls.LostByBusyClose | sqlora.c:4536-4552 | A concrete run that loses a slot: the query fails and the one close of it is busy |
| CursorTables.FinishLoses | sqlora.c:5091-5107 | The end of `sqlo_run` leaves the slot taken if and only if the reply to its final close, after fetching and counting, is a refusal other than STILL_EXECUTING |
| CursorTables.FinalCloseKeepsSlot | sqlora.c:5098-5104 | The final close loses the slot if and only if there is a handle and freeing it is refused with anything but STILL_EXECUTING |
| CursorTables.CloseExecutingOutcome | sqlora.c:4235-4248 | Closing the executing statements closes exactly those; every other slot keeps every field |
| CursorTables.CloseAllOutcome | sqlora.c:4259-4284 | Ending a session empties every slot in use; it stays taken only when its handle could not be freed; the others are untouched |
| CursorTables.CloseAllFrees | sqlora.c:4259-4284 | Each handle of a statement in use is freed once, in order; its slot is given back if and only if its own free is accepted; the status is that of the last close |
| CursorTables.CloseExecutingFrees | sqlora.c:4235-4248 | The same for the statements still executing |
| CursorTables.CloseExecutingVacates | sqlora.c:4235-4248 | With handle frees accepted, all the executing statements are given back |
| Library.Sqlora.CloseAllExecutingCursors | sqlora.c:4235-4248 | The loop over encoded handles closes what the table-level description says, in order |
| Library.Sqlora.CloseAllDbCursors | sqlora.c:4259-4284 | The loop over encoded handles closes and empties what the table-level description says, in order |
| Library.Sqlora.constructor | sqlora.c:4713-4771 | Both tables are cut to the limits of the handle encoding; no connection is in use and every invariant holds |
| Library.Sqlora.FindFreeDbvEntry | sqlora.c:1570-1616 | An allocated entry not in use is preferred, the first of them; else the first empty entry; failure if and only if there is neither |
| Library.Sqlora.StmtvAlloc | sqlora.c:1655-1671 | A zeroed table of `max_cursors` statements, each knowing its place |
| Library.Sqlora.DbAdd | sqlora.c:1681-1729 | Fails if and only if every entry is in use, changing nothing; else hands out a clean slot that was not in use, keeping the OCI handle `sqlo_exec` left there, and touches no connection in use |
| ConnectionObjects.Connection.Release | sqlora.c:1762-1823 | Handles freed and cleared, status zero, every statement released, flags down; the arrays and the handle of `sqlo_exec` survive |
| ConnectionObjects.Connection.ServerAttach | sqlora.c:5907-6048 | The handles allocated up to the first refusal, which releases all of them, or the attached connection |
| ConnectionObjects.Connection.BeginSession | sqlora.c:6065-6169 | The attributes, the polling of the session begin and the session flag, for every reply |
| Connections.ReleaseOutcome | sqlora.c:1762-1823 | A released slot is gone completely and satisfies the lifecycle invariant, its statements keeping their arrays |
| Connections.ReleaseFrees | sqlora.c:1775-1795 | Every OCI handle the connection has is freed once |
| Connections.AttachOutcome | sqlora.c:5857-6048 | Attaching ends attached with all five handles if and only if its seven OCI calls are accepted, else with the slot given back; it returns SUCCESS either way |
| Connections.RefusedAttach | sqlora.c:5857-6048 | A concrete refused attach: SUCCESS, and nothing attached |
| Connections.BeginOutcome | sqlora.c:6055-6169 | Beginning a session succeeds if and only if the connection is attached without one and the two attribute calls, the first OCISessionBegin reply that is not busy (STILL_EXECUTING, or ERROR with code 3123) and the first reply after it that is not busy are accepted; else the first refusal is returned and nothing changes |
| Connections.RefusedLogin | sqlora.c:6125-6140 | A concrete refused login: ERROR and no session |
| Connections.EndOutcome | sqlora.c:6250-6291 | Ending a session lowers its flag whatever the server replies and empties every statement in use |
| Connections.EndResult | sqlora.c:6250-6291 | It returns the first reply to OCISessionEnd that is not busy, after freeing the handle of every statement in use once; a statement stays in use if and only if its free was refused |
| Connections.DetachOutcome | sqlora.c:6176-6217 | Detaching successfully gives the slot back; it returns what ending the session does, and fails only then, with the session flag down |
| Connections.FreeOutcome | sqlora.c:6225-6243 | Freeing gives the slot back; no defines are left behind if and only if no statement had any |
| Connections.ConnectOutcome | sqlora.c:6298-6340 | Connecting succeeds if and only if the seven replies to attaching and then those to beginning a session are accepted, and if and only if it leaves the slot used, attached and with a session; it returns the first refusal of the session, or an invalid handle after a refused attach, and then the slot is given back |
| Library.Sqlora.Connect | sqlora.c:6298-6340 | Success if and only if a connection not in use before is now used, attached and has a session; on failure the set of used connections is as before; connections in use are not touched |
| Library.Sqlora.ServerAttach | sqlora.c:5857-6048 | The new connection after attaching, or no free slot; a name that cannot be split is an error that leaves the slot taken |
| Library.Sqlora.SessionBegin | sqlora.c:6055-6169 | The connection and the status after the call, for every reply; without credentials, or with a user name that has to be split and cannot be, an error and nothing asked |
| Library.Sqlora.SessionEnd | sqlora.c:6250-6291 | The connection, its statements and the status after the call, for every reply |
| Library.Sqlora.ServerDetach | sqlora.c:6176-6217 | The connection and the status after the call, for every reply |
| Library.Sqlora.ServerFree | sqlora.c:6225-6243 | The connection and the status after the call, for every reply |
| Library.Sqlora.Finish | sqlora.c:6347-6378 | The connection and the status after the call, for every reply; no other connection changes |
| Connections.FinishOutcome | sqlora.c:6347-6378 | Main result: finishing a logged-in connection gives its slot back whatever session end, detach and handle frees reply, with nothing bound or defined in any statement slot |
| Connections.FinishResult | sqlora.c:6347-6378 | It returns what ending the session replied, for every reply; SUCCESS without a session |
| Connections.FinishNeedsSession | sqlora.c:6357-6377 | The slot is given back if and only if there was a session; without one nothing happens and SUCCESS is reported |
| Library.Sqlora.Break | sqlora.c:7314-7361 | The connection, its statements and the status after the call, for every reply; no other connection changes |
| Connections.BreakOutcome | sqlora.c:7314-7361 | Main result: in non-blocking mode with OCIBreak accepted exactly the statements still executing are closed, every other statement keeps every field, and the handle of `sqlo_exec` is dropped; otherwise no statement changes |
| Connections.BreakResult | sqlora.c:7314-7361 | What it returns and frees, for every reply: the refusal of the mode or of OCIBreak, SUCCESS in blocking mode, else the reply to the last handle freed, or to OCIReset when there is none; each executing statement and the handle of `sqlo_exec` is freed once |
| Library.Sqlora.Exec | sqlora.c:5114-5211 | The connection and the result after the call, for every reply |
| Connections.ExecOutcome | sqlora.c:5114-5211 | For every reply, the exact condition under which the handle of `sqlo_exec` survives a call |
| Connections.ExecResult | sqlora.c:5114-5211 | Main result, for every reply: the first refusal of allocating, preparing, executing, counting and freeing, the first two only without a handle, else the row count; the statement is executed once if that point is reached and else not at all |
| Connections.ExecRuns | sqlora.c:5114-5211 | Main result: on every run of `sqlo_exec` and `sqlo_break` in either mode with prepares and frees accepted, the handle is set exactly while an execution is running (left by the latest call and not broken since), each statement is prepared once, each handle is freed once |
| Connections.BusyWithoutHandle | sqlora.c:5125-5211 | STILL_EXECUTING is returned without a handle if and only if allocating one is busy, or the execution succeeds and counting its rows is busy |
| Connections.BusyRowCount | sqlora.c:5174-5197 | A concrete run of the second kind: the next call prepares and executes the statement again |
| Connections.StaleExecHandle | sqlora.c:5125-5155 | Releasing a connection keeps that handle: the first statement of the next session is prepared if and only if the earlier one left no handle |
| Connections.DoKeepsInv | sqlora.c:5857-6378 | Every call keeps the lifecycle invariant, whatever the replies |
| Connections.RunsKeepInv | sqlora.c:5857-6378 | Main result: after every run of calls a session implies an attached server, that implies a used slot with all five handles, and an unused slot has no handle and no statement in use |
| Connections.StaleRun | sqlora.c:6225-6243 | An untidy run: freed under its statements, connected again, a query opened. It is executed if and only if the slot had no defines; else it is reported open with no execution recorded |
| Connections.TidyRuns | sqlora.c:6347-6378 | In every run that tears connections down only through `sqlo_finish` or with a session to end, no unused statement slot ever has leftover binds or defines |
| ConnectStrings.SplitJoin | sqlora.c:5787-5850 | uid without "/", pwd without "@" and any tnsname, joined, split back exactly if they fit; a part longer than `bufsize` is the only failure |
| ConnectStrings.JoinSplit | sqlora.c:5787-5850 | An accepted string with both separators in order is the join of its parts |
| ConnectStrings.WrittenWhenSeparated | sqlora.c:5834-5848 | A server name is taken from the string if and only if it has both separators in order; a string without "/" is all user name |
| ConnectStrings.SidTaken | sqlora.c:5844-5847 | A string without a server name takes it from ORACLE_SID: its beginning, at most one character less than `bufsize`; nothing when that is not set |
| ConnectStrings.SplitCstring | sqlora.c:5787-5850 | The three buffers afterwards, accepted or not, for null arguments too; index `bufsize` of a buffer is written if and only if its part is reached and has exactly `bufsize` characters, and nothing beyond it ever is |
| ConnectStrings.OneTooSmall | sqlora.c:5787-5850 | A user name of exactly `bufsize` characters is accepted and does not fit the documented capacity |
| ConnectStrings.ScottTooSmall | sqlora.c:5787-5850 | One such string |
| ConnectStrings.CopyPart | sqlora.c:5807-5842 | One copying loop stops at the separator, the end or the bound; it ends the text with NUL unless the part is too long |
| ConnectStrings.CopySid | sqlora.c:5844-5847 | The name from ORACLE_SID, cut to one character less than an explicit name may have |
| ConnectStrings.ServerNameKept | sqlora.c:5881-5895 | The exact condition under which the name given to attach is the name connected to |
| ConnectStrings.ServerNamed | sqlora.c:6314-6320 | The name `sqlo_connect` extracts can always be split again by attach |
| ConnectStrings.UserNameWhole | sqlora.c:6084-6086 | The user name it extracts is never split again by beginning the session |
| Lobs.PieceProtocol | sqlora.c:7559-7683 | The pieces of n bytes: ONE, or FIRST NEXT* LAST; ceil(n/65536) of them, full but the last; together the file |
| Lobs.StoreOutcome | sqlora.c:7543-7698 | For every pattern of replies: a failed OCILobOpen, for more than one piece and with another code than 3123, is returned with nothing sent; else which pieces are accepted, whether the LOB changes, and the status |
| Lobs.RefusedOpen | sqlora.c:7598-7604 | A concrete refused open: its error, and the LOB as it was |
| Lobs.StoreSucceeds | sqlora.c:7543-7698 | When the server is only ever busy, all pieces are accepted in order, the LOB holds the file and SUCCESS is returned |
| Lobs.SuccessMeansStored | sqlora.c:7679-7697 | SUCCESS means stored if and only if no piece after the first met a refusal above zero before an OCILobClose |
| Lobs.LostRefusal | sqlora.c:7679-7691 | A concrete run in which such a refusal is lost: SUCCESS with the LOB unchanged |
| Lobs.LoadOutcome | sqlora.c:7780-7881 | For every pattern of replies: the status and what the output file gets, including the piece of zeros after a late refusal |
| Lobs.SuccessMeansLoaded | sqlora.c:7780-7881 | SUCCESS means the file got exactly the first `loblen` bytes of the LOB |
| Lobs.RoundTrip | sqlora.c:7543-7881 | Main result: for every file of at least one byte and every finite pattern of STILL_EXECUTING replies, writing it and reading it back gives the identical bytes |
| Lobs.LobConnection.WriteBuffer | sqlora.c:7422-7469 | One piece sent, a first piece that is the whole LOB as the only one |
| Lobs.LobConnection.WriteStream | sqlora.c:7543-7698 | Does with the file what the description by pieces says, given enough bytes; without even a first piece, an error and nothing sent |
| Lobs.LobConnection.SendPieces | sqlora.c:7641-7683 | The loop over the remaining pieces; the unsigned remainder never wraps and is exactly 0 when the last piece is accepted |
| Lobs.LobConnection.ReadBuffer | sqlora.c:7735-7773 | One read into the buffer; bytes not delivered stay as they were |
| Lobs.LobConnection.ReadStream | sqlora.c:7780-7881 | The file gets what the description by pieces says, for every pattern of replies |
| Lobs.LobConnection.ReadPieces | sqlora.c:7832-7870 | The loop after the first piece; the unsigned remainder never wraps |
| SlotOwnership.OneOwner | sqlora.c:1681-1823 | Main result: however threads interleave the steps of adding and releasing connections, if nobody unlocks a mutex locked by another thread or frees a handle after its slot was released, no two threads own the same slot and a slot is clean when handed out |
| SlotOwnership.StepKeepsInv | sqlora.c:1681-1823 | Every atomic step of every thread, those two aside, keeps the ownership invariant |
| SlotOwnership.ForeignUnlock | sqlora.c:153-153 | The first assumption is needed: one unlock by a thread that does not hold the mutex lets two threads own one slot |
| SlotOwnership.StaleRelease | sqlora.c:6314-6335 | The second is needed, and `sqlo_connect` breaks it: a handle freed again after its slot was released and given to another thread makes that thread lose its connection, and the slot is handed out twice |

## Left out

- Lobs.LobConnection.WriteStream: nothing is promised about the bytes sent when the file has a first piece but is shorter than announced, because the source then sends what the buffer held before.
- Lobs.LobConnection.ReadStream: requires `loblen` to be at most the length of the LOB, as `sqlo_lob_get_length` reports it; an amount of 0, which OCI reads as everything, counts as no bytes.
- Library.Sqlora.SessionBegin: the text of the user name and password, and how it is cut to the buffers, is not kept, because it changes no state of the library.
- Connections.ExecRuns: assumes prepares and frees accepted, because a refusal of either keeps the handle; `ExecOutcome` gives the exact condition for every reply.
- Polls.OneStatement: for non-blocking mode with a mode that can be read sooner or later; `NonBlockingOpen` holds for every mode and every reply.
- Polls.AllColumnsExactly: for non-blocking mode with a mode that can be read, and a slot without leftover defines; with leftovers `StaleOpen` applies, and `NonBlockingOpen` holds for every mode and every reply.
- Polls.RunLosesExactly: for non-blocking mode with a mode that can be read; `RunOutcome` gives the condition for every mode and every reply.
- ConnectionObjects.Connection.BindByName: a parameter that is itself a cursor is not modelled.
- SlotOwnership.OneOwner: assumes that the mutex is unlocked only by its holder and that no thread frees a handle whose slot it has released; `ForeignUnlock` and `StaleRelease` show why. Otherwise a slot is used only by the thread it was handed to; of the calls on a stale handle only the freeing one is modelled.
- The attributes of a column are read by separate calls; the model takes the name from the answer to its call and the others from the answer to the last one.
- Of a bound argument the model keeps its position, OCI's handle and the indicator; the address and length of its text are not recorded.
- The bind arrays of a statement with their counters are one field holding sequences, and so are the define arrays; aliasing of single array elements is recorded only as the addresses given to OCI.
- The pointer from a statement back to its connection is replaced by the connection found through the handle, which is the same one.
- When reading the blocking mode replies with a value above zero the C variable stays uninitialised; the model lets it hold any value.
- The blocking mode of a connection is never changed; every result holds for both modes unless it names one.
- The output of fwrite is never refused, and memory allocation never fails.
- Session begin, session end and detach dereference an entry of the connection table that was never allocated; the model answers as for an unused one.
- A refused LOB transfer is given up by the server, and LOB calls use a connection of their own that has only a status and a server.
- Error messages, tracing, thread ids, the lookup tables of type names, commit and autocommit, cursors by reference and nested tables add no interesting state.
- `sqlo_prepare`, `sqlo_exists` and `sqlo_count` are built from the modelled operations; they keep the slot when preparing or fetching fails (sqlora.c:6479-6481, 4944-4945, 5031-5032).
- Real mutexes elsewhere: outside `_db_add` and `_db_release` the code unlocks mutexes it may not hold, so nothing is claimed there.
