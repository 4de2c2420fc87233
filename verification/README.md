# Verification of the Oracle driver for Qore

This project models the parts of the driver that hold state, loops and arithmetic of their own, and proves what they
promise. The OCI client, the Oracle server and the Qore core are an environment that may answer with any status, error
code, count or conversion. Where the environment may fail, a ghost counter `faults` records each failure, so that the
contracts say both what a call that succeeds has done and that a call only fails for a reason. In `Recovery.dfy` the
answers of the client are an input (`Client.responses`), and so the faults are bounded by the answers that fail.

| file | part of the driver | form |
|---|---|---|
| `ParseQuery.dfy`, `ParseQueryLaws.dfy`, `ParseQueryOutcome.dfy` | the query rewriter of prepared statements | a class that edits its text in place, refining a one-pass rewrite that carries the last rewritten character; laws of the rewrite, and what it makes of each character |
| `Recovery.dfy` | error handling, logon, statement registry, call guard, executing a statement | classes `Connection` and `Statement`; sessions are numbered, so that "bound on the new session" can be said |
| `LoadRuns.dfy`, `BulkLoad.dfy` | direct path loads | what a load does as a function of the client's answers; classes `Stream`, `LoadState` and `Connection` that refine it |
| `Numbers.dfy`, `Decimal128.dfy`, `NumberLaws.dfy` | integer and decimal numerals | loops proved against numeral values and a grammar of numerals |
| `Columnar.dfy` | columnar results | class `Builder` with a lazily made validity bitmap |
| `Fetch.dfy` | single rows, and blocks of rows as lists of hashes, as hashes of lists or as columnar results | class `Statement` |
| `SessionInfo.dfy` | per-thread session attributes | class `Connection` with the cache |
| `CancelHelper.dfy` | the lock protocol of the cancel helper | interleaved steps of any number of threads |
| `NamedTypes.dfy` | objects and collections | mutually recursive methods over a reused element accessor |
| `NoteScanner.dfy`, `ElfImages.dfy` | the packaging helper that checks module metadata | methods over the bytes of an image, and images packed field by field |
| `Chars.dfy`, `Wrappers.dfy` | shared character classes, numerals and `Option` | functions |

`dafny verify dfyconfig.toml` checks the whole project.

## Main results

- **Query rewriter.** The in-place loop computes the one-pass rewrite (`Parse`). The rewrite loses nothing, changes only
  what each kind of piece says, takes argument k for the k-th piece that takes one, treats characters as quoted or
  commented exactly where an independent lexer does, and a second scan of its result changes nothing and finds one
  placeholder for each bind node, in order (`Rescan`). A query without escapes is rewritten to its end if and only if
  each plain-text marker is `%d`, a `%s` whose argument has a text, or a `%v` without a letter behind it, and each
  placeholder's argument describes it (`CompleteIff`); then its text and nodes are what its characters become
  (`RewrittenAs`), and otherwise the first character that fails is the outcome (`EndsAtFirstFailure`). The loop ends
  because the text that is still to be scanned gets shorter although the whole text may grow.
- **Recovery.** An error is answered with "execute again" if and only if a retry is allowed, outside a logon, for a
  connection that is shown to be lost, with no active transaction, no exception, a logon that succeeds and no failed
  call on the way; then the current and all registered statements are prepared and bound on a newer session
  (`HandleError`). Over every run, with guarded calls nested in any way, each execution that is asked for has its
  result; its executions on the server are of the query, and with the bind nodes, that its statement was last prepared
  with, at most two, the second only where that is allowed, and it has none only if something failed; the connection is
  closed at most once and only when no guarded call is on the stack; and if no answer of the client fails, all
  operations are performed and all executions succeed (`AnyRun`). A session that the receive timeout hit and that does
  not run any more was ended by its own connection if and only if it was hit only where the error handler does not see
  it: in its own logon, in the handler's ping, or in a call whose status does not come to the handler
  (`TimeoutsAreKept`). So a session on which the timeout ended a call that was handled is never ended.
- **Bulk load.** Whatever counts and statuses the client reports, a block does to the stream and the table what a
  function of its answers says. Row r of a block has value r of each list and the scalars (`Encodes`). A load whose
  blocks all succeeded has loaded exactly the rows that they stand for, in order (`LoadExact`, `LoadRows`); no call of
  the client is made before a whole block is serialized. After a failed block, the next one loads exactly its rows,
  whatever the client does, if and only if no block was sent before in the load or one that was sent succeeded
  (`NextBlockExact`). Over every run, each operation has a result that it may have, each load was given exactly the
  blocks of the operations while it was active, it is finished or aborted before its handles are freed, and its end
  report tells the bytes of the blocks that were loaded completely, and success only if the load was committed and all
  blocks succeeded (`AnyRun`).
- **Decimals and columns.** A text is stored in a decimal column if and only if it is a numeral whose value fits, and
  then as the number that it denotes (`StoredIffStorable`). A column decodes to the cells that were appended
  (`BuildColumn`), and a number column has the values of the list path, at whichever row the fallback happens, if and only
  if every text before the fallback has at most 19 characters behind a minus sign (`SameAsListPath`), which holds for all
  integers as the server writes them (`CanonicalSuffices`). A numeral in a list is the number that it denotes, unless it is
  short and has an exponent but no dot (`ListedNumeral`); one in a typed column always is (`TypedNumeral`).
- **Fetching.** The two algorithms for duplicate column names in hashes agree: the hash of columns is the transpose of the
  list of rows under the same, pairwise distinct keys (`Transposed`). The third one, for columnar results, agrees with them,
  and keeps all columns, if and only if no column has the numbered name of a column that comes more than once (`NamesAgree`,
  `DistinctUnlessClash`, `AllColumnsThere`). Any mix of calls for rows, for columns, for columnar results and for the next
  row gives the rows of the cursor, each once and in order (`Fetch.AnyRun`, `BlocksEnd`).
- **Session attributes.** Over any interleaving of threads and logons, each apply leaves the session with the values that
  the calling thread gave last, unless a call failed or a value cannot be converted (`AnyRun`); a value is sent as the
  longest prefix of whole characters that fits.
- **Cancel helper.** In every interleaving, no break is in progress and none starts once the destructor has returned
  (`NoBreakAfterReturn`), and until then an interrupt by an idle thread can reach a break (`InterruptCanBreak`).
- **Named types.** Binding a value of its type and reading it back returns it if and only if, at every level of nesting,
  no NULL follows an object in a collection of objects (`RoundTrip`); each attribute comes back as the value of the field
  with its name or, without one, with its name in lower case, and as NULL if there is neither (`ObjectComesBack`).
- **Note scanner.** The scan of an encoding of any notes finds exactly the metadata descriptors (`ScanFindsRecords`), the
  record of an image packed field by field is the descriptor of its one metadata note (`ElfImages.ImageRead`), and
  the helper returns normally if and only if the command succeeded and every module kept its record (`Preserve`).

## Where the code does less than one might expect

- After an escaped `\:` or `\%` the scanner passes over two more characters without looking at them. `EscapeSkip` says
  exactly when that is harmless, `EscapeHidesMarker` shows a marker that is missed, and with fewer than two characters
  behind the escape the scan runs past the end of the text (outcome `Overrun`).
- A name character right behind `%v` merges with the generated name (`GeneratedNameAlone`); positions are not affected.
- In a collection of objects, a NULL behind an object appends that object again, because an object element takes its
  null indicator from the object. `AppendedInOrder` and `RoundTrip` give the exact condition.
- Decimal scaling can leave 128 bits, which is undefined in C++; it is the outcome `Overflow`. `FitsStaysInside` shows
  that this never happens to a number that fits the column, `ScalingOverflows` shows a number to which it happens, and
  the outcome is `Overflow` exactly when it does (`LeavesRange` in the contract of `Convert`).
- The two readings of integers, the typed one and the one of list columns, agree on the text of an integer if and only if
  it has at most 19 digits or does not fit 64 bits (`ReadingsAgreeOnIntegers`); `LeadingZerosDisagree` is a text on which
  they do not.
- A short numeral with an exponent but no dot is listed as the integer in front of the exponent (`ExponentLost`).
- If the very first chunk of a load fails after some of its rows were converted, these stay in the stream and are sent
  with the next block, although their own block was reported as failed. `FirstChunkFails` shows it, `NextBlockExact` says
  exactly when it cannot happen, and `BlockExact` that it makes the difference.
- A session on which the receive timeout ended a call can be ended by its own connection, which may commit the transaction
  that was lost: if the timeout hits the session SQL while a connection is made again (`SessionSqlTimesOut`), the ping of the
  error handler, whose exception is dropped (`PingEndsSession`), or a call whose status does not come to the error handler,
  as those of OCILIB (src/ocilib/typeinfo.cpp:223, 264), when the connection is lost or closed afterwards
  (`OcilibEndsSession`). `TimeoutsAreKept` gives the exact condition.
- The driver calls of a bulk load hold no call guard (src/oracle.cpp:202-216), so a connection that is lost in one is
  deleted before that call returns, together with the load that it works on. `UnguardedCall` says exactly when that happens,
  and `BulkCallLosesConnection` shows an answer of the client for which it does; in a guarded call it never happens.
- The registry asserts that a statement is not registered yet; a statement that is defined again after it was cleared, as
  when a connection is made again, fails that assertion (`DefinedAgain`); `Define` says exactly when.
- Columns named `A`, `A` and `A_1` have only two keys in a columnar result, and one of them is lost (`KeyTakenTwice`,
  `AllColumnsThere`).
- The check that a row was fetched is passed after an empty block, too; fetching a row then reads buffers into which none was
  fetched (`FetchRow`, `RowAfterEmptyBlock`).
- The documentation says that a missing attribute of an object raises an exception; the code binds NULL, and so does
  the model.

## Model

| member | source | states |
|---|---|---|
| ParseQuery.PreparedStatement.Parse | src/QorePreparedStatement.cpp:2358-2492 | the loop that edits the text in place leaves the text, the nodes and the outcome of the one-pass rewrite of the original text, and saves the arguments only after success outside a transaction |
| ParseQuery.PreparedStatement.ParsePiece | src/QorePreparedStatement.cpp:2371-2484 | one turn of the loop does to the text and the nodes what the next step of the one-pass scan says |
| ParseQuery.PreparedStatement.RewriteMarker | src/QorePreparedStatement.cpp:2402-2447 | a value marker is replaced by the text of its argument or by a generated name with a new node, or the scan ends with the error of the step |
| ParseQuery.PreparedStatement.ReadPlaceholder | src/QorePreparedStatement.cpp:2449-2467 | the longest name behind a colon becomes one node described by the next argument; the text does not change |
| ParseQuery.PreparedStatement.RewriteEscape | src/QorePreparedStatement.cpp:2468-2484 | the backslash is dropped, the escaped character and two more are passed over, and the scan overruns without them |
| ParseQuery.SkipText | src/QorePreparedStatement.cpp:2371-2400 | quotes, both kinds of comment and plain text are passed over as the step says, without changing the text |
| ParseQuery.ReadName | src/QorePreparedStatement.cpp:2454-2457 | reads exactly the longest run of name characters |
| ParseQuery.Replaced | src/QorePreparedStatement.cpp:2406-2445 | replacing the next piece and moving behind what was inserted keeps the scan on course, so inserted text is never scanned |
| ParseQuery.Turn | src/QorePreparedStatement.cpp:2371-2484 | each turn brings the scan to its next state with less text left to scan, or ends it with the text and nodes of the whole rewrite |
| ParseQueryLaws.NothingLost | src/QorePreparedStatement.cpp:2371-2484 | the pieces of a query and the unscanned rest make up the original text |
| ParseQueryLaws.PiecesReplaced | src/QorePreparedStatement.cpp:2371-2484 | replacing each piece by its new form gives the rewritten text, and the nodes are those of the pieces in order |
| ParseQueryLaws.PiecesFaithful | src/QorePreparedStatement.cpp:2402-2471 | kept text and placeholders do not change, an escape loses its backslash, and only the three markers are replaced |
| ParseQueryLaws.ArgumentsInOrder | src/QorePreparedStatement.cpp:2403-2462 | the k-th argument taken is argument k, so each is taken once and in text order |
| ParseQueryLaws.PiecesInOrder | src/QorePreparedStatement.cpp:2402-2465 | each piece is made from the argument, and numbered by the node count, that the pieces before it leave |
| ParseQueryLaws.QuotesAndComments | src/QorePreparedStatement.cpp:2371-2400 | without escapes, every character is read as quoted, commented or plain exactly where an independent lexer reads it so |
| ParseQueryLaws.Rescan | src/QorePreparedStatement.cpp:2402-2465 | a second scan of a rewritten query without inserted text and escapes changes nothing and finds one placeholder for each node, in order |
| ParseQueryLaws.BindPositions | src/QorePreparedStatement.cpp:2281-2290 | so position k of the whole query is bind node k |
| ParseQueryLaws.GeneratedNameAlone | src/QorePreparedStatement.cpp:2428-2445 | a generated name is found as it is if and only if no name character follows its marker |
| ParseQueryLaws.GeneratedNamesDiffer | src/QorePreparedStatement.cpp:2436-2439 | different nodes have different generated names |
| ParseQueryLaws.Described | src/QorePreparedStatement.cpp:2449-2467 | which arguments describe a placeholder, and with which size, type and value |
| ParseQueryLaws.EscapeSkip | src/QorePreparedStatement.cpp:2468-2484 | passing over two characters behind an escaped one is harmless if and only if they are there, the first stands alone, and the second stands alone or is a quote |
| ParseQueryLaws.EscapeResumes | src/QorePreparedStatement.cpp:2468-2484 | where it is harmless, an escaped character is kept and the scan resumes right behind it |
| ParseQueryLaws.EscapeHidesMarker | src/QorePreparedStatement.cpp:2468-2484 | a query in which the skip hides a marker |
| ParseQueryOutcome.CompleteIff | src/QorePreparedStatement.cpp:2402-2467 | a query without escapes is rewritten to its end if and only if every plain-text marker and the argument of every placeholder is acceptable |
| ParseQueryOutcome.RewrittenAs | src/QorePreparedStatement.cpp:2371-2467 | then its text and its bind nodes are what its characters become one by one |
| ParseQueryOutcome.EndsAtFirstFailure | src/QorePreparedStatement.cpp:2402-2467 | otherwise the outcome is the reason of the first character that is not acceptable, and the text is left as it is from there |
| Recovery.Connection.HandleError | src/QoreOracleConnection.cpp:502-642 | says "again" if and only if a retry is allowed, outside a logon, for a connection shown to be lost, without a transaction or an exception, with a logon that succeeds and no failed call; then all statements are prepared and bound on a newer session; otherwise an exception is left; a session shown to be lost is ended unless the close has to wait, and a timeout of the ping is recorded |
| Recovery.Connection.HandleLoss | src/QoreOracleConnection.cpp:568-641 | a lost connection is made again with all statements bound on a newer session, or it is closed, now or when the guarded call ends; its session is ended in both cases |
| Recovery.Connection.Ping | src/QoreOracleConnection.cpp:554-560 | fails exactly if its status does, and records a receive timeout of its own, which is not handled |
| Recovery.Connection.LogonAgain | src/QoreOracleConnection.cpp:589-613 | logs on or gives up: a failed logon empties the registry and closes the connection or leaves the close waiting, and a timeout of the new session is recorded with what follows from it |
| Recovery.Connection.HandleTimeout | src/QoreOracleConnection.cpp:523-551 | the timed-out session is abandoned, the connection is made again or is closed, which is now if and only if the logon fails outside a guarded call, no registered statement keeps anything of the old session, and a timeout of the new session's logon is recorded with what follows from it |
| Recovery.Connection.Reconnect | src/QoreOracleConnection.cpp:589-635 | a lost connection gets a newer session with all statements bound on it, if and only if there was no exception, the logon succeeds and no call failed; the old session is ended |
| Recovery.Connection.Resume | src/QoreOracleConnection.cpp:602-635 | on a new session all statements are bound, or, after an exception, the datasource closes what it knows |
| Recovery.Connection.BindAllAgain | src/QoreOracleConnection.cpp:620-633 | success leaves every registered statement and the current one usable on the current session, and changes nothing of the connection |
| Recovery.Connection.BindRegistered | src/QoreOracleConnection.cpp:620-629 | every registered statement is bound on the current session with its text and its nodes kept |
| Recovery.Connection.BindAgain | src/QorePreparedStatement.h:312-319 | a cleared statement gets a handle, is prepared and has all of its nodes bound on the current session, with its text kept |
| Recovery.Connection.BindNodes | src/QorePreparedStatement.cpp:2281-2291 | every bind node is bound on the current session, or the first error ends the loop |
| Recovery.Connection.CheckErr | src/QoreOracleConnection.cpp:391-445 | succeeds exactly for the two success statuses, changes nothing then, leaves an exception otherwise, and records a receive timeout where it arrives, apart for a logon; outside a guarded call an error closes the connection if and only if it shows a loss, or is a timeout after which the logon fails |
| Recovery.Connection.ClientCall | src/QoreOracleConnection.cpp:391-445 | the answer of the client decides whether the call succeeds, whether the connection is closed and which session is ended |
| Recovery.Connection.UnhandledCall | src/ocilib/ocilib_checks.h:160-174 | a call whose status does not come to the error handler leaves the session running, whatever its status is, and its receive timeout is recorded apart |
| Recovery.Connection.UnguardedCall | src/oracle.cpp:202-216 | a driver call without a guard has its connection closed before it returns if and only if the first of its calls that fails loses the connection |
| Recovery.BulkCallLosesConnection | src/oracle.cpp:202-216 | ORA-03113 in a call of a bulk load deletes the connection under the driver call that still runs |
| Recovery.Connection.Logon | src/QoreOracleConnection.cpp:676-767 | never entered within a logon; succeeds if and only if every step does, with a newer session on an attached server whose handle has the option's receive timeout; a session that was begun stays, also if a later step fails, and its timeout is recorded; statements and the registry do not change |
| Recovery.Connection.LogonSteps | src/QoreOracleConnection.cpp:702-766 | for any answers of the client, the logon begins a session, times out on it, or succeeds exactly as the answers say; no error in a logon is handled as a lost connection |
| Recovery.Connection.Begin | src/QoreOracleConnection.cpp:735-754 | a session begins if and only if the server is in the service context and the begin succeeds; an interrupt behind it fails the logon and leaves the session running |
| Recovery.Connection.Attach | src/QoreOracleConnection.cpp:702-733 | attaches if and only if every step succeeds, and then the handle has the receive timeout of the option |
| Recovery.Connection.SetRecvTimeout | src/QoreOracleConnection.cpp:447-486 | success sets the option and the handle to the value; a rejected value leaves both as they were |
| Recovery.ReadTimeout | src/QoreOracleConnection.cpp:447-479 | a value is accepted if and only if it is nothing, or an integer or integer numeral of at most 19 digits within the range |
| Recovery.Connection.ApplyRecvTimeout | src/QoreOracleConnection.cpp:488-500 | success sets the attribute of the handle and nothing else |
| Recovery.Connection.ResetStatements | src/QoreOracleConnection.cpp:644-651 | ends with an empty registry and every statement in it freed |
| Recovery.Connection.ClearStatements | src/QoreOracleConnection.cpp:653-663 | frees the session state of every registered statement and of the current one, and keeps text and bind values |
| Recovery.Connection.AbortConnection | src/QoreOracleConnection.h:270-278 | within a guarded call the close waits; otherwise the connection is closed now; the registry is empty in both cases |
| Recovery.Connection.Logoff | src/QoreOracleConnection.h:332-343 | a session that runs is ended and the server detached |
| Recovery.Connection.AbandonSession | src/QoreOracleConnection.h:345-354 | the server is detached and the timed-out session is not ended |
| Recovery.Connection.EnterCall | src/QoreOracleConnection.h:646-650 | one more guarded call is on the stack |
| Recovery.Connection.LeaveCall | src/QoreOracleConnection.h:652-659 | the connection is closed if and only if this was the outermost call and a close was waiting |
| Recovery.Connection.RegisterStatement | src/QoreOracleConnection.h:579-582 | the registry gains exactly this statement, and all it holds are statements that are not deleted; its assertion holds if and only if the registry changes |
| Recovery.Connection.DeregisterStatement | src/QoreOracleConnection.h:584-589 | the registry loses exactly this statement |
| Recovery.Statement.Clear | src/QorePreparedStatement.cpp:2157-2175 | no handle, preparation, bind or definition is left; the text, the bind nodes and their number are kept |
| Recovery.Statement.Reset | src/QorePreparedStatement.cpp:2177-2208 | nothing is left, and the statement is out of the registry |
| Recovery.Connection.Define | src/QorePreparedStatement.cpp:2210-2226 | a second definition fails; the first one registers the statement, and meets the assertion of the registry if and only if the statement is not registered |
| Recovery.DefinedAgain | src/QoreOracleConnection.h:579-582 | a statement that is defined, cleared and defined again fails the assertion |
| Recovery.Connection.PrepareStatement | src/QorePreparedStatement.cpp:2228-2257 | success leaves a statement with its text and as many bind nodes as were asked for, usable on the current session |
| Recovery.Connection.Execute | src/QorePreparedStatement.cpp:2087-2146 | at most two executions on the server for one call, both of the statement's text with its bind nodes, the second only as allowed; success means that the last one succeeded; the connection is not closed while the call is on the stack |
| Recovery.Connection.ExecuteAgain | src/QorePreparedStatement.cpp:2116-2141 | a second execution runs on a newer session with the statement bound on it, outside a transaction, and never after a receive timeout; it does happen for a lost connection when the logon succeeds and nothing fails |
| Recovery.Connection.CloseStatement | src/oracle.cpp:495-510 | a closed statement is deleted and no longer registered |
| Recovery.GuardedCall | src/QoreOracleConnection.h:636-663 | guarded calls nest properly: after any steps and any guarded calls within it, a guarded call leaves a valid connection at the depth it found, closed only if that was the outermost call, and every execution asked for has its result with the query that its statement was last prepared with |
| Recovery.Obtain | src/oracle.cpp:322-331 | a statement with this number that is prepared has the query it was prepared with, and a new one is prepared with the text and the nodes of the step |
| Recovery.RunStep | src/oracle.cpp:322-512 | a driver call executes nothing but the query of its statement, with its bind nodes: the one of the step for a new statement, and otherwise the one that the number was last prepared with; or there is a reason why there is no execution |
| Recovery.OtherStep | src/oracle.cpp:322-512 | defining, closing and other client work execute nothing and do not close the connection while a guarded call is on the stack |
| Recovery.Appended | src/QorePreparedStatement.cpp:2087-2146 | one more driver call of at most two allowed executions keeps a run sound |
| Recovery.Repeated | src/QorePreparedStatement.cpp:2116-2141 | a repeated execution that meets the conditions keeps a run sound |
| Recovery.AnyRun | src/QoreOracleConnection.h:640-663 | over every run, with any nesting of guarded calls and any answers of the client: every execution asked for is accounted for by executions of its statement's query on the server or by a failure, executions are sound, faults are answers that fail, without one all operations are performed and all executions succeed, a timed-out session is ended exactly as TimeoutsAreKept says, and the connection is closed at most once and at depth 0 |
| Recovery.AllExecuted | src/QorePreparedStatement.cpp:2087-2146 | if no execution on the server fails and there is no fault, every execution that is asked for succeeds, unless its query cannot be rewritten |
| Recovery.Connection.Arrive | src/QoreOracleConnection.cpp:502-530 | a receive timeout that comes to the error handler is recorded for the session that runs, apart for its logon |
| Recovery.Connection.TimeoutsAreKept | src/QoreOracleConnection.h:332-354 | a timed-out session that does not run any more was ended by its connection if and only if the timeout hit it only in its own logon, in the ping of the error handler or in calls that are not handled |
| Recovery.SessionSqlTimesOut | src/QoreOracleConnection.cpp:502-551 | a session whose session SQL times out while the connection is made again after a timeout is ended when the connection is closed |
| Recovery.PingEndsSession | src/QoreOracleConnection.cpp:553-642 | a session on which the receive timeout ends the ping after an error such as ORA-00942 is ended by its own connection |
| Recovery.OcilibEndsSession | src/ocilib/typeinfo.cpp:209-233 | a session on which the receive timeout ends a call of OCILIB is ended by its own connection when that is lost afterwards |
| Recovery.Connection.Open | src/QoreOracleConnection.cpp:184-333 | there is a connection if and only if its handles are allocated, its logon succeeds and OCILIB is initialized; otherwise a session that was begun is ended |
| Numbers.ShortIffFits | src/QoreOracleConnection.h:524-538 | for canonical integer text, the comparison of texts accepts exactly the 64-bit integers |
| Numbers.MagnitudeFits | src/QoreOracleConnection.h:530-534 | comparing length and text decides whether a number is at most a limit of 19 digits |
| Numbers.OrderedAsValues | src/QoreOracleConnection.h:530-534 | digit strings of one length are ordered as their values |
| Numbers.ColumnsAgree | src/QoreOracleStatement.cpp:80-94 | for canonical integer text, which the server writes, the typed column and the list column agree on which numbers are integers and on their values |
| Numbers.ReadingsAgree | src/QoreOracleStatement.cpp:80-94 | a text that is an integer for the typed column is the same integer in a list column if and only if it has at most 19 characters behind a minus sign or is no 64-bit integer |
| Numbers.ReadingsAgreeOnIntegers | src/QoreOracleConnection.h:524-538 | on the text of an integer both readings agree if and only if it has at most 19 digits or does not fit 64 bits |
| Numbers.ShortIffFew | src/QoreOracleConnection.h:524-538 | a text that holds a 64-bit integer is taken for short if and only if it has at most 19 characters behind a minus sign |
| Numbers.LeadingZerosDisagree | src/QoreOracleStatement.cpp:80-94 | a text with nineteen leading zeros on which they disagree |
| NumberLaws.ListedNumeral | src/QoreOracleConnection.h:524-538 | a numeral with a dot, or one that is not short, stays its text in a list; a short one without a dot becomes an integer, which is the number it denotes if and only if its exponent is 0 or it is zero |
| NumberLaws.TypedNumeral | src/QoreOracleStatement.cpp:80-94 | a typed column holds exactly the numerals of 64-bit integers without dot and exponent, as the numbers they denote |
| NumberLaws.ExponentLost | src/QoreOracleConnection.h:524-538 | 1E5 is listed as the integer 1 |
| Decimal128.ParseDecimal128 | src/QoreOracleStatement.cpp:123-272 | readable text is converted and any other text is rejected; the reasons are true of the number, and the outcome is an overflow exactly if a number of at most 38 digits leaves 128 bits |
| Decimal128.ReadNumeral | src/QoreOracleStatement.cpp:133-212 | text is readable if and only if, without the white space around it, it is a numeral with an exponent of at most 76; its parts are those of the numeral |
| Decimal128.ReadMantissa | src/QoreOracleStatement.cpp:154-172 | collects the digits around at most one dot and counts those behind it |
| Decimal128.ReadExponent | src/QoreOracleStatement.cpp:181-212 | accepts an exponent up to the end of the text if and only if it is well formed and at most 76; a text without a mark has none |
| Decimal128.ReadMarked | src/QoreOracleStatement.cpp:181-212 | behind its mark, an exponent is a sign and digits up to the end of the text with a value of at most 76 |
| Decimal128.Convert | src/QoreOracleStatement.cpp:214-272 | the outcome is true of the number: stored as the integer it denotes, rejected because of its digits, its fraction or its size, or an overflow exactly if the arithmetic leaves 128 bits |
| Decimal128.Unscaled | src/QoreOracleStatement.cpp:214-243 | up to 38 significant digits after padding give the signed integer they denote; more are refused |
| Decimal128.Fit | src/QoreOracleStatement.cpp:246-271 | stores the rescaled integer if and only if it has at most the digits of the precision, and reports an overflow if and only if rescaling leaves 128 bits |
| Decimal128.Rescale | src/QoreOracleStatement.cpp:246-260 | gives the integer that denotes the same number at the new scale, says that there is none, or reports that the arithmetic leaves 128 bits, each exactly when it is so |
| Decimal128.Power10 | src/QoreOracleStatement.cpp:100-106 | powers of ten fit 128 bits up to 38 and no further |
| Decimal128.Precision | src/QoreOracleStatement.cpp:108-116 | counts the decimal digits of an integer |
| Decimal128.Store | src/QoreOracleStatement.cpp:118-121 | the unsigned low half and the signed high half make up the integer again |
| Decimal128.ParseShow | src/QoreOracleStatement.cpp:133-212 | parsing what a numeral shows gives the numeral |
| Decimal128.ShowParse | src/QoreOracleStatement.cpp:133-212 | only what a numeral shows is parsed as that numeral |
| Decimal128.StoredIffFits | src/QoreOracleStatement.cpp:214-272 | a number is stored if and only if it has at most 38 digits and fits the column, and what is stored is that number |
| Decimal128.StoredIffStorable | src/QoreOracleStatement.cpp:123-272 | a text is stored if and only if it is a numeral that can be stored, and then as the number it denotes |
| Decimal128.FitsStaysInside | src/QoreOracleStatement.cpp:246-260 | a number that fits the column never takes the arithmetic out of 128 bits |
| Decimal128.ScalingOverflows | src/QoreOracleStatement.cpp:246-248 | a number that does not fit and does |
| Columnar.SetValidityBit | src/QoreOracleStatement.cpp:58-70 | sets the bit of one row and changes no other, growing the bitmap if it has to |
| Columnar.OneBitSet | src/QoreOracleStatement.cpp:64-69 | updating one bit of one byte changes the validity of one row only |
| Columnar.Builder.Append | src/QoreOracleStatement.cpp:335-383 | after success the builder holds one more cell, whichever kind the column has; a decimal column refuses exactly what cannot be stored |
| Columnar.Builder.AppendNull | src/QoreOracleStatement.cpp:431-447 | the first null makes a bitmap in which all earlier rows are valid; the new row is null and is counted |
| Columnar.Builder.AppendValid | src/QoreOracleStatement.cpp:449-454 | the new row is valid, with or without a bitmap |
| Columnar.Builder.EnsureValidity | src/QoreOracleStatement.cpp:422-429 | the bitmap has room for one more row, and its bits tell which rows are not null |
| Columnar.Builder.FallbackToList | src/QoreOracleStatement.cpp:456-480 | the list holds every row that the typed storage held, as the integer or NULL that it was |
| Columnar.Builder.AppendDecimal | src/QoreOracleStatement.cpp:352-361 | a decimal is appended if and only if its text can be stored |
| Columnar.Builder.AppendList | src/QoreOracleStatement.cpp:482-494 | a list column gains the list path's value of the cell |
| Columnar.Builder.Finish | src/QoreOracleStatement.cpp:385-419 | the column represents exactly the cells: a row for each, with nulls and values where they are, and the count of nulls |
| Columnar.BuildColumn | src/QoreOracleStatement.cpp:282-503 | any sequence of appends gives a column that represents exactly those cells, in the storage that the type and the number option call for; a decimal column is given up if and only if a text cannot be stored |
| Columnar.StringsListed | src/QoreOracleStatement.cpp:309-330 | with the string option a column of numbers lists their very texts |
| Columnar.TextsListed | src/QoreOracleStatement.cpp:309-330 | other columns list texts, and numbers without a declared precision are listed as numbers with the numeric option |
| Columnar.SameInList | src/QoreOracleStatement.cpp:364-377 | an integer of the typed storage is what the list path makes of the same text if and only if the text has at most 19 characters behind a minus sign |
| Columnar.SameAsListPath | src/QoreOracleStatement.cpp:456-494 | the values of a number column are those of the list path, at whichever row the fallback happens, if and only if every text before it has at most 19 characters behind a minus sign |
| Columnar.CanonicalSuffices | src/QoreOracleStatement.cpp:364-377 | texts of canonical integers, and texts that are no 64-bit integers, always meet that condition |
| Fetch.MakeRow | src/QoreOracleStatement.cpp:572-614 | a hash with the value of each column under its chosen key, unless a value cannot be read |
| Fetch.Statement.FetchRow | src/QoreOracleStatement.cpp:572-614 | an error if no row and no block was fetched; otherwise the hash of the current row, an unreadable value, or, if blocks were fetched but no row, whatever the buffers hold |
| Fetch.RowAfterEmptyBlock | src/QoreOracleStatement.cpp:572-577 | after an empty block the check that a row was fetched is passed although none was |
| Fetch.FindName | src/QoreOracleStatement.cpp:593-605 | finds the first numbered name that is not a key; the search ends |
| Fetch.Statement.FetchRows | src/QoreOracleStatement.cpp:625-681 | returns the next block of rows as hashes, an empty block once after the end, and an error from then on |
| Fetch.Statement.ReadRows | src/QoreOracleStatement.cpp:648-668 | the list holds the next rows in order, as many as the block takes |
| Fetch.Statement.FetchColumns | src/QoreOracleStatement.cpp:737-830 | returns the next block of rows as lists of equal length, under the same protocol |
| Fetch.Statement.ReadColumns | src/QoreOracleStatement.cpp:760-818 | the lists hold the next rows in order, as many as the block takes; after a value that cannot be read the block is fetched to its end and given up |
| Fetch.AddRow | src/QoreOracleStatement.cpp:772-813 | all lists have the same length between rows; a list that is longer was used in this row; each value goes to the list with its column's chosen key |
| Fetch.FindList | src/QoreOracleStatement.cpp:785-803 | the first numbered list that was not used in this row has the name that a row's hash would choose |
| Fetch.Statement.FetchColumnar | src/QoreOracleStatement.cpp:833-928 | returns the next block of rows as a columnar result, under the same protocol |
| Fetch.Statement.ReadColumnar | src/QoreOracleStatement.cpp:867-890 | each builder has the values of its column in the next rows, as many as the block takes, up to the first row with a value that cannot be read |
| Fetch.AppendRow | src/QoreOracleStatement.cpp:874-885 | each builder gains the value of its column unless one cannot be read |
| Fetch.FinishColumns | src/QoreOracleStatement.cpp:909-925 | every column is found under its key unless a later column has the same key |
| Fetch.UniqueNames | src/QoreOracleStatement.cpp:505-514 | numbers each column by how often its name came before, through a table of counts |
| Fetch.DistinctUnlessClash | src/QoreOracleStatement.cpp:505-514 | the keys of a columnar result are distinct if and only if no column has the numbered name of a column that comes more than once |
| Fetch.NamesAgree | src/QoreOracleStatement.cpp:505-605 | a columnar result has the keys of a row hash if and only if its own keys are distinct |
| Fetch.ColumnarIsColumns | src/QoreOracleStatement.cpp:737-928 | then a columnar result has the same columns under the same keys as the hash of columns |
| Fetch.AllColumnsThere | src/QoreOracleStatement.cpp:909-925 | a columnar result has all columns if and only if no two of them clash |
| Fetch.KeyTakenTwice | src/QoreOracleStatement.cpp:505-514 | columns A, A and A_1 clash: the last two have the same key |
| Fetch.NamesDistinct | src/QoreOracleStatement.cpp:590-605 | the chosen keys are pairwise distinct |
| Fetch.NamesCover | src/QoreOracleStatement.cpp:719-725 | every column name is itself a key |
| Fetch.NextName | src/QoreOracleStatement.cpp:590-605 | each column's key is chosen among the keys of the columns before it and is new |
| Fetch.Transposed | src/QoreOracleStatement.cpp:572-830 | the hash of columns is the list of rows transposed, under the same keys |
| Fetch.BlocksInOrder | src/QoreOracleStatement.cpp:625-928 | the blocks and the rows that are left are the rows of the cursor, each once and in order |
| Fetch.BlocksEnd | src/QoreOracleStatement.cpp:626-640 | with positive sizes, blocks are full up to the first short one; then come one empty block and errors only |
| Fetch.AllAtOnce | src/QoreOracleStatement.cpp:625-681 | a call of a size that is not positive takes all rows, and every such call behind it gives an empty block |
| Fetch.AnyRun | src/QoreOracleStatement.cpp:572-928 | in any mix of calls for rows, for columns, for columnar results and for the next row on one cursor, each call gives its part in the form asked for, and the parts and the rows that are left are the rows of the cursor, unless a call of the client fails or a value cannot be read |
| Fetch.Statement.Next | src/QoreOracleStatement.h:154-170 | a row, the end of the data, or a failure |
| BulkLoad.ParseIdentifier | src/QoreOracleBulkLoad.cpp:73-112 | accepts exactly the simple identifiers, qualified once if allowed, and converts them to upper case |
| BulkLoad.WrappedSumCheck | src/QoreOracleBulkLoad.cpp:817-824 | the test of the 32-bit sum that may wrap accepts exactly the counts from 1 to the rows that remain |
| LoadRuns.TurnsFollow | src/QoreOracleBulkLoad.cpp:782-834 | whatever the client answers, a loop over the turns has loaded a prefix of the stale rows and its own, and exactly those up to its offset as long as it goes on |
| LoadRuns.ChunkLoads | src/QoreOracleBulkLoad.cpp:756-837 | a chunk that succeeds loads the stale rows and its own, one that fails a prefix of them |
| LoadRuns.BlockLoads | src/QoreOracleBulkLoad.cpp:685-692 | a block that succeeds loads the stale rows and its own and leaves none behind, one that fails a prefix of them |
| LoadRuns.BlockExact | src/QoreOracleBulkLoad.cpp:685-692 | a block that succeeds loads exactly its rows if and only if no rows were left in the stream |
| LoadRuns.LoadExact | src/QoreOracleBulkLoad.cpp:593-694 | a load whose blocks all succeeded has loaded the concatenation of their rows and has left none in the stream |
| LoadRuns.NextBlockExact | src/QoreOracleBulkLoad.cpp:756-760 | for every behaviour of the client no rows are left for the next block, if and only if no block was sent before in the load or one that was sent succeeded |
| LoadRuns.FirstChunkFails | src/QoreOracleBulkLoad.cpp:756-837 | a load in which the row of a block that failed is loaded with the next block |
| LoadRuns.CountedIsSum | src/QoreOracleBulkLoad.cpp:182-202 | the 64-bit counter counts the bytes of the completely loaded blocks exactly, if they fit it |
| BulkLoad.Stream.BeginStream | src/QoreOracleBulkLoad.cpp:171-180 | an active stream that begins reports its begin once |
| BulkLoad.Stream.AddBytes | src/QoreOracleBulkLoad.cpp:182-202 | progress totals grow by at least 64 KiB each, and less than that stays unreported; an overflow of the counter is an error |
| BulkLoad.Stream.Finish | src/QoreOracleBulkLoad.cpp:208-215 | exactly one end report with the bytes counted, a success only if nothing failed |
| BulkLoad.LoadState.CountRows | src/QoreOracleBulkLoad.cpp:593-645 | a block is accepted if and only if it has each column once and all lists have one length; only scalars make one row |
| BulkLoad.LoadState.SerializeBlock | src/QoreOracleBulkLoad.cpp:655-683 | row r has the fields of value r of each list and of the scalars, or a value is rejected |
| BulkLoad.LoadState.SerializeColumn | src/QoreOracleBulkLoad.cpp:664-682 | every field of a column is serialized and size-checked, and its bytes are counted |
| BulkLoad.SerializedField | src/QoreOracleBulkLoad.cpp:660-683 | the field of row r is null for no value, and otherwise the serializer's text, within the column's size, of value r of a list or of the scalar; or there is none |
| BulkLoad.NotEncoded | src/QoreOracleBulkLoad.cpp:671-674 | a value that is rejected leaves the block without any encoding |
| BulkLoad.LoadState.PrepareBlock | src/QoreOracleBulkLoad.cpp:593-683 | the whole block is checked and serialized without a call of the client |
| BulkLoad.LoadState.LoadRows | src/QoreOracleBulkLoad.cpp:593-694 | the block does to the load what a function of the client's answers says; as long as no block of the load has failed, success loads exactly the block's rows, row r with value r of each list, in order, and failure a prefix of them; a call of the client implies that the block is fully serialized; the bytes counted are those of the rows; a failure has a reason and is remembered |
| BulkLoad.LoadState.SendBlock | src/QoreOracleBulkLoad.cpp:593-694 | the rows are those that the block stands for; their bytes are counted if and only if all of them were loaded |
| BulkLoad.AllOkExact | src/QoreOracleBulkLoad.cpp:593-694 | a load whose calls all succeeded has loaded exactly the rows that its blocks stand for, in order |
| BulkLoad.PayloadIsBytes | src/QoreOracleBulkLoad.cpp:655-683 | the bytes counted field by field are the bytes of the rows |
| BulkLoad.LoadState.LoadChunks | src/QoreOracleBulkLoad.cpp:685-692 | the chunks make up the rows, in order, as a function of the client's answers |
| BulkLoad.LoadState.LoadChunk | src/QoreOracleBulkLoad.cpp:756-837 | a chunk resets, fills and converts as a function of the client's answers; nothing resets the stream before a chunk succeeded |
| BulkLoad.LoadState.FillArray | src/QoreOracleBulkLoad.cpp:761-780 | the column array holds the rows of the chunk |
| BulkLoad.LoadState.Convert | src/QoreOracleBulkLoad.cpp:784-824 | whatever the client reports, an accepted step converts between one and all remaining rows, and the stream gains exactly those |
| BulkLoad.LoadState.ConvertAndLoad | src/QoreOracleBulkLoad.cpp:782-834 | the loop ends, and has done what its turns say |
| BulkLoad.LoadState.LoadStream | src/QoreOracleBulkLoad.cpp:732-754 | success loads the whole stream, failure a prefix of it |
| BulkLoad.LoadState.DescribeColumns | src/QoreOracleBulkLoad.cpp:398-475 | success describes a different loadable column for each name, in order; other results have their reason |
| BulkLoad.LoadState.Initialize | src/QoreOracleBulkLoad.cpp:355-591 | a result of 0 leaves an active load whose stream has begun; a result of 1 means that this path cannot be used and that nothing was made |
| BulkLoad.LoadState.Setup | src/QoreOracleBulkLoad.cpp:560-590 | the direct path is prepared, with a column array that takes rows, before the stream begins |
| BulkLoad.LoadState.Terminate | src/QoreOracleBulkLoad.cpp:696-721 | a prepared load is finished or aborted, finished only if that was wanted; the stream gets its end report with the bytes of the blocks that were loaded completely, a success only for a finished load without failures |
| BulkLoad.LoadState.EndPath | src/QoreOracleBulkLoad.cpp:698-716 | a load that is to be finished and cannot be is aborted; without a failure it is committed exactly if that was wanted |
| BulkLoad.LoadState.EndLoad | src/QoreOracleBulkLoad.cpp:900-908 | an active load is over: committed only if that was wanted, and surely if the end succeeded, which only a failure prevents; what was loaded stays |
| BulkLoad.LoadState.Destroy | src/QoreOracleBulkLoad.cpp:346-353 | a load that is still prepared is aborted before its handles are freed |
| BulkLoad.Connection.BulkLoadBegin | src/QoreOracleBulkLoad.cpp:865-889 | only one load at a time; a result of 0 begins a load with nothing loaded and nothing in the stream; a result of 1 made no state of the client; a result other than 0 has its reason and leaves nothing behind |
| BulkLoad.Connection.BulkLoadRows | src/QoreOracleBulkLoad.cpp:891-898 | as long as no block of the load has failed, success appends exactly the rows that the block stands for and failure a prefix of them |
| BulkLoad.LoadBlocks | src/QoreOracleBulkLoad.cpp:593-898 | blocks loaded one after the other through the connection: the rows of all that succeeded are loaded, each once and in order, and of one that failed a prefix |
| BulkLoad.Connection.BulkLoadEnd | src/QoreOracleBulkLoad.cpp:900-908 | the load is over; it is committed only if success was wanted, and surely if the end succeeded |
| BulkLoad.Connection.Rollback | src/QoreOracleConnection.cpp:794-816 | an active load is aborted first and is not committed |
| BulkLoad.Connection.Close | src/QoreOracleConnection.cpp:344-349 | a load that is still active is aborted |
| BulkLoad.AnyRun | src/QoreOracleBulkLoad.cpp:339-908 | over every run, each operation has a result that it may have, each load was given exactly the blocks of the operations while it was active, and each load is over: exact if all blocks succeeded, finished or aborted before it was freed, and with its one end report |
| BulkLoad.Perform | src/QoreOracleBulkLoad.cpp:865-908 | an operation has a result that it may have and touches no load but the active one |
| SessionInfo.TruncateUtf8 | src/QoreOracleConnection.cpp:58-68 | backs up over continuation bytes from the limit |
| SessionInfo.TruncatesToWholeCharacters | src/QoreOracleConnection.cpp:58-68 | on well-formed text the result is the whole characters that fit, at most three bytes below the limit |
| SessionInfo.FitIsLongest | src/QoreOracleConnection.cpp:58-68 | the characters that fit are the longest prefix of whole characters within the limit |
| SessionInfo.DropsOneCharacter | src/QoreOracleConnection.cpp:159-161 | truncating by one byte drops exactly the last character |
| SessionInfo.SendsLongestPrefix | src/QoreOracleConnection.cpp:146-161 | what is sent is the conversion of the longest prefix of whole characters whose conversion fits |
| SessionInfo.WhatIsGiven | src/QoreOracleConnection.cpp:74-101 | a thread's text counts with as many whole characters as fit 64 bytes |
| SessionInfo.Connection.WhatIsSent | src/QoreOracleConnection.cpp:136-162 | a value reaches the session as it is in UTF-8, and otherwise as the conversion of the most characters whose conversion is not too long |
| SessionInfo.Connection.ConvertValue | src/QoreOracleConnection.cpp:136-161 | the loop ends with the value that stands for the text on the session, or with the error of the conversion |
| SessionInfo.Connection.SetSessionAttr | src/QoreOracleConnection.cpp:136-162 | success sets exactly this attribute |
| SessionInfo.Connection.ApplyThreadSessionInfo | src/QoreOracleConnection.cpp:164-182 | success leaves all attributes with the thread's values and has set exactly those that were unknown or different; a failure has a reason and makes the session unknown |
| SessionInfo.OnlyChanged | src/QoreOracleConnection.cpp:168-179 | an attribute is set if and only if the session is unknown or has another value, each at most once and in order |
| SessionInfo.Connection.Logon | src/QoreOracleConnection.cpp:676-678 | a new session is not known to have any value |
| SessionInfo.SetThreadInfo | src/QoreOracleConnection.cpp:74-110 | sets the truncated values of one thread and of no other; an error leaves them as they were; empty information is none |
| SessionInfo.AnyRun | src/QoreOracleConnection.cpp:164-182 | over any interleaving of threads and logons, each operation has its result: an apply leaves the session with the values that its thread gave last, or a call failed, or a value cannot be converted |
| SessionInfo.Perform | src/QoreOracleConnection.cpp:74-182 | an operation has the result that the values given last call for |
| CancelHelper.StepKeepsInv | src/QorePreparedStatement.cpp:38-69 | every step of an interrupting thread or of the owner keeps the lock discipline and the handles of a running break |
| CancelHelper.RunKeepsInv | src/QorePreparedStatement.cpp:38-69 | so does every run |
| CancelHelper.NoBreakAfterReturn | src/QorePreparedStatement.cpp:38-69 | in every run of any number of threads, no break is in progress or starts once the destructor has returned, and every break has its handles |
| CancelHelper.DestructorWaits | src/QorePreparedStatement.cpp:61-68 | while a break is in progress the destructor cannot pass its lock, and the thread can finish |
| CancelHelper.InterruptCanBreak | src/QorePreparedStatement.cpp:38-69 | from every reachable state with a registered helper, an interrupt by an idle thread can reach a break |
| CancelHelper.LockIsFreed | src/QorePreparedStatement.cpp:38-69 | while the helper is registered, the thread that holds its lock can finish |
| NamedTypes.BindOne | src/oracleobject.cpp:185-605 | an attribute or element is stored as the specification of binding says |
| NamedTypes.BindObject | src/oracleobject.cpp:185-605 | an object is stored attribute by attribute, each with the value of its field, and fails if and only if there are no attributes or the value of a field cannot be bound |
| NamedTypes.BindAttribute | src/oracleobject.cpp:239-254 | an attribute gets the value of the field whose key is its name or, without one, its name in lower case, and NULL if there is neither |
| NamedTypes.FieldFound | src/oracleobject.cpp:239-246 | the field that is found is the one with the name or, without one, with the lower-case name; none is found only if there is neither |
| NamedTypes.BindCollection | src/oracleobject.cpp:932-1340 | appending through one reused accessor stores what the specification of appending says |
| NamedTypes.ReadObject | src/oracleobject.cpp:632-930 | an object reads as a hash of its attributes in order |
| NamedTypes.ReadCollection | src/oracleobject.cpp:1362-1623 | a collection reads as a list of its elements in order |
| NamedTypes.Element.SetNullIndicator | src/ocilib/element.cpp:158-178 | an object element switches to the indicator of its object and keeps its own; any other element takes the value |
| NamedTypes.Element.SetNull | src/ocilib/element.cpp:1468-1479 | the accessor then appends NULL, or for an object element the latest object |
| NamedTypes.Element.SetValue | src/ocilib/element.cpp:1251-1296 | the accessor then appends this value |
| NamedTypes.CollectionHandle.Append | src/ocilib/collection.cpp:307-332 | the collection gains what the accessor holds |
| NamedTypes.AppendedInOrder | src/oracleobject.cpp:932-1340 | the k-th stored element is the k-th item if and only if no NULL follows an object in a collection of objects |
| NamedTypes.RoundTrip | src/oracleobject.cpp:185-1623 | binding a value of its type and reading it back returns it, with missing attributes, empty strings and empty LOBs turned into NULL, if and only if at every level of nesting no NULL follows an object in a collection of objects |
| NamedTypes.ObjectComesBack | src/oracleobject.cpp:185-930 | an object in order comes back with every attribute under its name, holding what the value of its field stands for, or NULL without a field |
| NamedTypes.CollectionComesBack | src/oracleobject.cpp:932-1623 | a collection in order comes back as the list of its values in their order |
| NamedTypes.ValuesConverted | src/oracleobject.cpp:254-600 | what values of other types come back as from attributes of each scalar type |
| NamedTypes.NumbersConverted | src/oracleobject.cpp:254-600 | what values come back as from number attributes, or that they cannot be bound |
| Chars.Alphabet | src/oracleobject.cpp:244 | the letters of the two alphabets are letters, and changing case turns one into the other |
| Chars.NoOtherLetters | src/oracleobject.cpp:244 | there are no other letters, and changing case leaves every other character |
| NamedTypes.ObjectsComeBackInOrder | src/oracleobject.cpp:932-1623 | a collection of objects that are each in order comes back as it was if and only if no NULL follows an object in it |
| NamedTypes.IntegerReadsAsItself | src/oracleobject.cpp:632-930 | with the default number option a 64-bit integer bound to a NUMBER attribute reads as itself |
| NoteScanner.Align | debian/preserve-aot-metadata.py:26-27 | the smallest multiple of the alignment that is not less than the value |
| NoteScanner.ScanSegment | debian/preserve-aot-metadata.py:68-78 | scanning reads inside the segment only, ends, and adds the records of the notes it finds |
| NoteScanner.NoteFound | debian/preserve-aot-metadata.py:69-78 | a position that holds an encoded note is read as that note |
| NoteScanner.ScanFindsRecords | debian/preserve-aot-metadata.py:68-78 | in the encoding of any notes at either alignment, exactly the descriptors of the metadata notes are found, in order |
| NoteScanner.ReadModuleInfo | debian/preserve-aot-metadata.py:30-81 | gives the record of an image, nothing without one, and an error for a truncated image or several records |
| NoteScanner.EntryInside | debian/preserve-aot-metadata.py:53-57 | the check of the program headers keeps every entry inside the image |
| NoteScanner.ImageRecords | debian/preserve-aot-metadata.py:56-78 | in an image whose note segments hold notes, exactly the metadata descriptors are found |
| ElfImages.LayoutRead | debian/preserve-aot-metadata.py:38-54 | the program headers of a packed image are found where its header tells, or it has none or is truncated |
| ElfImages.ManyHeaders | debian/preserve-aot-metadata.py:47-54 | with PN_XNUM program headers their number is the sh_info field of the first section header |
| ElfImages.ProgramRead | debian/preserve-aot-metadata.py:57-68 | a packed program header is read as the segment that it tells |
| ElfImages.ImageRead | debian/preserve-aot-metadata.py:30-81 | the record of a packed image is the descriptor of its one metadata note, empty without one, and an error for several |
| NoteScanner.SaveRecords | debian/preserve-aot-metadata.py:84-92 | saves the records of all modules that are regular files, unless one cannot be read |
| NoteScanner.Preserve | debian/preserve-aot-metadata.py:84-113 | returns normally if and only if the command succeeded and every saved module still has its record; all saved modules are checked in either case |

## Left out

- ParseQuery.PreparedStatement.RewriteEscape: string splicing counts characters while the position counts bytes; the model covers text with one byte for each character before an escape.
- ParseQueryLaws.QuotesAndComments: queries with escapes are excluded, because the characters passed over behind an escape are not looked at.
- ParseQueryLaws.Rescan: queries with `%d`, `%s` or escapes are excluded, because the text that they leave may be scanned differently.
- Recovery.Connection.BindNodes: each bind node is one call of the client; array sizes, temporary LOBs and bind callbacks are not modelled; freeing a temporary LOB is an unhandled call.
- Recovery.Connection.LogonSteps: setting the user name and setting the password are one step, and so are preparing and executing the session SQL.
- Recovery.Connection.Attach: the receive timeout attribute may or may not outlast a detach.
- Recovery.Connection.Open: the character encoding of the connection and the allocation of its handles are one step that may fail.
- Recovery.Connection.ConnectionLost: the callbacks of the datasource act on an arbitrary subset of the statements.
- Recovery.Connection.BindAgain: copying the query text cannot fail.
- Decimal128.ParseDecimal128: the result of an overflow, which is undefined in C++, is the outcome Overflow and not a stored value.
- Columnar.Builder.Append: floating point values are real numbers.
- Fetch.MakeRow: the order of hash keys is not modelled.
- Fetch.Statement.FetchColumnar: the values of a column are a list; `Columnar.dfy` models how a builder stores them, and the description of the columns is left out.
- Fetch.Statement.FetchRows: the periodic checks for an interrupt are part of the calls that may fail.
- The end-of-data flags of a statement are not cleared when it is reset, so the block protocol is stated for one executed cursor.
- BulkLoad.LoadState.Initialize: reading the description of the table is not counted as a call of the direct path, and setting the attributes is one call.
- BulkLoad.LoadState.LoadRows: the serialization of each type of value is a parameter; a connection that is lost during a bulk call is a call that fails, so the use of the load after its connection was deleted is not modelled here; `Recovery.Connection.UnguardedCall` says when that happens.
- BulkLoad.Stream.AddBytes: a block that overflows the byte counter is not part of the total that is reported, as in the code.
- CancelHelper.NoBreakAfterReturn: a helper without a sandbox manager registers nothing and is not modelled.
- NamedTypes.ReadCollection: the decoding of dates is left out; dates are opaque values.
- NamedTypes.BindOne: conversions of the Qore core between types of values are parameters, and a LOB of the wrong kind is refused by the client.
- NamedTypes.RoundTrip: the number conversions of the client are parameters, of which only the reading of integers that it wrote is assumed; values of other types than the attribute's come back converted, as `ValuesConverted` and `NumbersConverted` say.
- Advanced queueing, the callback for LONG values, array bind buffers, writing and reading LOBs, and the type tables of describe and of column mapping.
- Commits, selecting a single row, module registration and fork handling would add members without a harder property.
