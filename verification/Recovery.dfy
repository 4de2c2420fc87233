/** Connection loss and recovery: the error handler, the logon, the statement registry and the call guard. */
module Recovery {
  import opened Chars
  import opened Numbers
  import opened Wrappers

  /** The status of an OCI call. */
  datatype Status = Success | SuccessWithInfo | Error(code: nat) | OtherFailure

  predicate Succeeds(status: Status) {
    status == Success || status == SuccessWithInfo
  }

  /** ORA-12609: the receive timeout of the connection ended the call. */
  const RECEIVE_TIMEOUT: nat := 12609

  /** ORA-03113, ORA-03114 and ORA-01041 say that the connection is lost. */
  predicate LostCode(code: nat) {
    code == 3113 || code == 3114 || code == 1041
  }

  /** How a step in the client ends: an interrupt, or a status. */
  datatype Reply = Interrupted | Answer(status: Status)

  predicate Passes(r: Reply) {
    r.Answer? && Succeeds(r.status)
  }

  const TIMED_OUT: Reply := Answer(Error(RECEIVE_TIMEOUT))

  /** The status of an execution that an interrupt may end (ORA-01013). */
  function StatusOf(r: Reply): Status {
    if r.Interrupted? then Error(1013) else r.status
  }

  /** How the client and the server answer in a logon: setting the user name and the password, attaching to the server
      (which an interrupt may follow, and which may or may not forget the receive timeout), setting the receive timeout,
      the server in the service context, beginning the session (which an interrupt may follow), the session in the
      service context, and the session SQL. */
  datatype LogonReplies = LogonReplies(
    credentials: Reply, attach: Status, attachInterrupted: bool, forgets: bool, timeout: Status, context: Reply,
    begin: Status, beginInterrupted: bool, useSession: Reply, sql: Reply)

  predicate Attaches(recvTimeout: nat, r: LogonReplies) {
    && Passes(r.credentials) && Succeeds(r.attach) && !r.attachInterrupted
    && (recvTimeout != 0 ==> Succeeds(r.timeout))
  }

  predicate Begins(recvTimeout: nat, r: LogonReplies) {
    Attaches(recvTimeout, r) && Passes(r.context) && Succeeds(r.begin)
  }

  predicate LogsOn(recvTimeout: nat, r: LogonReplies) {
    Begins(recvTimeout, r) && !r.beginInterrupted && Passes(r.useSession) && Passes(r.sql)
  }

  /** The receive timeout ends a call of the logon on the session that it has begun. */
  predicate SessionTimesOut(recvTimeout: nat, r: LogonReplies) {
    && Begins(recvTimeout, r) && !r.beginInterrupted
    && (r.useSession == TIMED_OUT || (Passes(r.useSession) && r.sql == TIMED_OUT))
  }

  const ALL_GOOD := Answer(Success)

  const GOOD_LOGON :=
    LogonReplies(ALL_GOOD, Success, false, false, Success, ALL_GOOD, Success, false, ALL_GOOD, ALL_GOOD)

  /** How the client answers the error handler of a call: the ping, and the logon that makes the connection again. */
  datatype Handling = Handling(ping: Status, logon: LogonReplies)

  /** An error in a logon is not handled. */
  const NO_HANDLING := Handling(Success, GOOD_LOGON)

  /** How the client answers a call and, if it fails, the handler of its error. */
  datatype Response = Response(reply: Reply, handling: Handling)

  /** How many of the first `n` calls fail. */
  function Failures(responses: nat -> Response, n: nat): nat {
    if n == 0 then 0 else Failures(responses, n - 1) + if Passes(responses(n - 1).reply) then 0 else 1
  }

  /** Every call passes. */
  ghost predicate AllPass(responses: nat -> Response) {
    forall i :: Passes(responses(i).reply)
  }

  lemma {:induction false} NoFailures(responses: nat -> Response, n: nat)
    requires AllPass(responses)
    ensures Failures(responses, n) == 0
  {
    if n > 0 {
      NoFailures(responses, n - 1);
    }
  }

  /** How many calls pass before the first one that fails, of `n` calls from `from` on. */
  function FailsFirst(responses: nat -> Response, from: nat, n: nat): (k: nat)
    ensures k <= n
    ensures forall i :: from <= i < from + k ==> Passes(responses(i).reply)
    ensures k < n ==> !Passes(responses(from + k).reply)
    decreases n
  {
    if n == 0 || !Passes(responses(from).reply) then 0 else 1 + FailsFirst(responses, from + 1, n - 1)
  }

  /** The Oracle client, which answers the calls outside a logon one by one. */
  class Client {
    const responses: nat -> Response
    var asked: nat

    constructor (responses: nat -> Response)
      ensures this.responses == responses && asked == 0
    {
      this.responses := responses;
      asked := 0;
    }

    ghost function Failed(): nat
      reads this
    {
      Failures(responses, asked)
    }

    function Upcoming(): Response
      reads this
    {
      responses(asked)
    }

    method Next() returns (r: Response)
      modifies this
      ensures r == old(Upcoming()) && asked == old(asked) + 1
      ensures Failed() == old(Failed()) + if Passes(r.reply) then 0 else 1
    {
      r := responses(asked);
      asked := asked + 1;
    }
  }

  /** Where the receive timeout ends a call: in a call whose status reaches the error handler, in the logon of its
      session, in the handler's own ping, or in a call whose status does not reach the handler (a call of OCILIB,
      freeing a temporary LOB, aborting a load that could not be finished). */
  datatype Place = InCall | InLogon | InPing | Unhandled

  datatype Timeout = Timeout(session: nat, place: Place)

  function TimeoutIf(timedOut: bool, session: nat, place: Place): set<Timeout> {
    if timedOut then {Timeout(session, place)} else {}
  }

  /** One execution of a statement on the server: the driver call it belongs to, the session it ran on, whether a
      transaction was active, whether the statement was prepared and bound on that session, the text and the number of
      bind nodes of the statement, and its status. */
  datatype Execution = Execution(
    call: nat, session: nat, transaction: bool, ready: bool, text: string, binds: nat, status: Status)

  /** A call may be executed again only on a newer session, on which its statement was prepared and bound, and only
      if the first execution failed outside a transaction and was not ended by the receive timeout. */
  predicate MayRepeat(first: Execution, second: Execution) {
    && first.status.Error? && first.status.code != RECEIVE_TIMEOUT && !first.transaction
    && first.session < second.session && second.ready && second.text == first.text && second.binds == first.binds
  }

  /** The second execution of a call, with its outcome. */
  predicate Repeats(first: Execution, second: Execution, ok: bool) {
    && second.call == first.call && second.text == first.text && second.binds == first.binds
    && MayRepeat(first, second) && (ok <==> Succeeds(second.status))
  }

  /** The executions of one driver call for a statement with this text and this number of bind nodes: at most two, the
      last of which tells whether the call succeeds, unless something else failed. */
  predicate CallOf(added: seq<Execution>, call: nat, text: string, binds: nat, ok: bool, fault: bool) {
    && |added| <= 2 && (|added| == 2 ==> MayRepeat(added[0], added[1]))
    && (forall i :: 0 <= i < |added| ==> added[i].call == call && added[i].text == text && added[i].binds == binds)
    && if ok then added != [] && Succeeds(added[|added| - 1].status)
       else fault || (added != [] && !Succeeds(added[|added| - 1].status))
  }

  /** Over a whole run, each driver call is executed at most twice, and the second time only as MayRepeat says. */
  ghost predicate Sound(executions: seq<Execution>) {
    && (forall i, j :: 0 <= i < j < |executions| && executions[i].call == executions[j].call ==>
          MayRepeat(executions[i], executions[j]))
    && (forall i, j, k :: 0 <= i < j < k < |executions| && executions[i].call == executions[j].call ==>
          executions[k].call != executions[i].call)
  }

  lemma OneExecution(first: Execution)
    ensures CallOf([first], first.call, first.text, first.binds, Succeeds(first.status), false)
  {
  }

  lemma TwoExecutions(first: Execution, second: Execution, ok: bool)
    requires Repeats(first, second, ok)
    ensures CallOf([first, second], first.call, first.text, first.binds, ok, false)
  {
  }

  /** What one more driver call adds to a sound run. */
  lemma Appended(executions: seq<Execution>, added: seq<Execution>, call: nat)
    requires Sound(executions) && forall i :: 0 <= i < |executions| ==> executions[i].call < call
    requires |added| <= 2 && forall i :: 0 <= i < |added| ==> added[i].call == call
    requires |added| == 2 ==> MayRepeat(added[0], added[1])
    ensures Sound(executions + added)
  {
    var all := executions + added;
    forall i, j | 0 <= i < j < |all| && all[i].call == all[j].call
      ensures MayRepeat(all[i], all[j])
    {
      if i >= |executions| {
        assert all[i] == added[0] && all[j] == added[1];
      }
    }
  }

  /** A prepared statement, as far as a lost connection changes it. */
  class Statement {
    const conn: Connection
    var sql: Option<string>
    var handle: bool      // whether a statement handle is handlesMade
    var preparedOn: nat   // the session on which the handle was prepared; 0: not prepared
    var binds: seq<nat>   // for each bind node the session it was bound on; 0: not bound
    var defined: bool
    var deleted: bool

    constructor (conn: Connection)
      ensures this.conn == conn && sql == None && !handle && preparedOn == 0 && binds == [] && !defined && !deleted
    {
      this.conn := conn;
      sql, handle, preparedOn, binds, defined, deleted := None, false, 0, [], false, false;
    }

    /** The statement can be executed on the session. */
    predicate Usable(session: nat)
      reads this
    {
      sql.Some? && handle && preparedOn == session && forall i :: 0 <= i < |binds| ==> binds[i] == session
    }

    predicate Cleared()
      reads this
    {
      !handle && preparedOn == 0 && !defined && forall i :: 0 <= i < |binds| ==> binds[i] == 0
    }

    /** The text and the number of bind nodes are kept, or the statement was freed. */
    twostate predicate TextKept()
      reads this
    {
      sql == None || SameText()
    }

    twostate predicate SameText()
      reads this
    {
      sql == old(sql) && |binds| == |old(binds)|
    }

    /** Frees the session state; the SQL text and the bind values are kept. */
    method Clear()
      modifies this
      ensures Cleared() && |binds| == |old(binds)| && sql == old(sql) && deleted == old(deleted)
    {
      handle, preparedOn := false, 0;
      for i := 0 to |binds|
        invariant |binds| == |old(binds)| && forall j :: 0 <= j < i ==> binds[j] == 0
        invariant !handle && preparedOn == 0 && sql == old(sql) && deleted == old(deleted)
      {
        binds := binds[i := 0];
      }
      defined := false;
    }

    /** Frees all of the statement's data and takes it out of the registry. */
    method Reset()
      modifies this, conn`stmtSet
      ensures Cleared() && binds == [] && sql == None && deleted == old(deleted)
      ensures conn.stmtSet == old(conn.stmtSet) - {this}
    {
      Clear();
      binds, sql := [], None;
      conn.DeregisterStatement(this);
    }
  }

  function Current(stmt: Statement?): set<Statement> {
    if stmt == null then {} else {stmt}
  }

  class Connection {
    const client: Client
    var stmtSet: set<Statement>
    var lost: bool
    var callDepth: nat
    var abortPending: bool
    var inLogon: bool
    var serverAttached: bool
    var recvTimeout: nat       // the "recv-timeout" option, in milliseconds
    var ocilibInit: bool

    // the environment
    var handleTimeout: nat     // the receive timeout attribute of the server handle
    var session: nat           // how many sessions were begun: the number of the latest one
    var live: bool             // the latest session runs on the attached server
    var transaction: bool      // the datasource's transaction is active
    var closed: bool           // the datasource closed the connection and deleted it

    // the history of the run
    ghost var executions: seq<Execution>
    ghost var calls: nat            // the driver calls that executed statements
    ghost var ended: set<nat>       // sessions ended by a request on their own connection
    ghost var timeouts: set<Timeout> // where the receive timeout ended a call
    ghost var closings: seq<nat>    // the call depth at each close
    ghost var faults: nat           // calls that failed outside a logon, other than executions

    /** Every registered pointer is a statement of this connection that is not deleted and has its SQL text. */
    ghost predicate Registry()
      reads this, stmtSet
    {
      forall s :: s in stmtSet ==> s.conn == this && !s.deleted && s.sql.Some?
    }

    /** A session on which the receive timeout ended a call is not ended if the status reached the handler; otherwise it
        still runs, or it was ended. */
    ghost predicate Settled(t: Timeout)
      reads `session, `ended, `timeouts, `live
    {
      && t.session <= session
      && if t.place == InCall then t.session !in ended
         else Timeout(t.session, InCall) in timeouts || t.session in ended || (live && t.session == session)
    }

    /** What holds at every step of every run. */
    ghost predicate History()
      reads `executions, `calls, `session, `ended, `timeouts, `live, `serverAttached, `closings, `closed
      reads `abortPending, `callDepth, `recvTimeout, `handleTimeout, `faults, client
    {
      Past() && (recvTimeout == 0 ==> handleTimeout == 0)
    }

    /** What holds of everything but the receive timeout. */
    ghost predicate Past()
      reads `executions, `calls, `session, `ended, `timeouts, `live, `serverAttached, `closings, `closed
      reads `abortPending, `callDepth, `faults, client
    {
      && Sound(executions)
      && (forall i :: 0 <= i < |executions| ==> executions[i].call < calls && executions[i].session <= session)
      && (forall s :: s in ended ==> s <= session) && (forall t :: t in timeouts ==> Settled(t))
      && (live ==> serverAttached && session !in ended)
      && closings == (if closed then [0] else [])
      && (abortPending ==> callDepth > 0)
      && Blameless()
    }

    /** Every fault is a failed answer of the client; without one, no execution fails and the connection stays. */
    ghost predicate Blameless()
      reads `executions, `closed, `abortPending, `faults, client
    {
      && faults <= client.Failed()
      && (client.Failed() == 0 ==>
            !closed && !abortPending && forall i :: 0 <= i < |executions| ==> Succeeds(executions[i].status))
    }

    /** The receive timeout has not ended a handled call on the session that runs. */
    ghost predicate OnTime()
      reads `live, `session, `timeouts
    {
      live ==> Timeout(session, InCall) !in timeouts
    }

    /** The connection is ready for calls, or it is closed, about to be closed or logging on. */
    ghost predicate Ready()
      reads this
    {
      !closed && !abortPending && !inLogon ==> serverAttached && live && !lost && handleTimeout == recvTimeout
    }

    /** What holds when an error has arrived; outside a logon a receive timeout is then recorded. */
    ghost predicate Arrived(code: nat)
      reads this, stmtSet, client
    {
      && Registry() && History() && Ready() && (inLogon || client.Failed() > 0)
      && if code == RECEIVE_TIMEOUT && !inLogon then live ==> Timeout(session, InCall) in timeouts else OnTime()
    }

    /** A timed-out session that does not run any more was ended by its own connection if and only if the receive
        timeout ended calls on it only where the error handler does not see their status: in its logon, in the handler's
        ping, and in calls that do not come to the handler. */
    ghost predicate TimeoutsKept()
      reads this
    {
      forall t :: t in timeouts && !(live && t.session == session) ==>
        (t.session in ended <==> Timeout(t.session, InCall) !in timeouts)
    }

    lemma TimeoutsAreKept()
      requires History()
      ensures TimeoutsKept()
    {
      hide Sound, Blameless;
      forall t | t in timeouts && !(live && t.session == session)
        ensures t.session in ended <==> Timeout(t.session, InCall) !in timeouts
      {
        assert Settled(t);
        assert Timeout(t.session, InCall) in timeouts ==> Settled(Timeout(t.session, InCall));
      }
    }

    lemma CallsBelow()
      requires History()
      ensures forall i :: 0 <= i < |executions| ==> executions[i].call < calls
    {
    }

    lemma NothingPending()
      requires History() && callDepth == 0
      ensures !abortPending
    {
    }

    /** Between the steps of a driver call, a connection that is not closed, about to be closed or logging on has a
        session, and its server handle has the receive timeout of the option. */
    ghost predicate Valid()
      reads this, stmtSet, client
    {
      Registry() && History() && OnTime() && Ready()
    }

    /** What neither a logon nor a logoff changes. */
    twostate predicate OnlySession()
      reads this
    {
      && stmtSet == old(stmtSet) && lost == old(lost) && callDepth == old(callDepth)
      && abortPending == old(abortPending) && recvTimeout == old(recvTimeout) && ocilibInit == old(ocilibInit)
      && transaction == old(transaction) && closed == old(closed) && executions == old(executions)
      && calls == old(calls) && closings == old(closings) && faults == old(faults)
    }

    /** Nothing changes but the record of timeouts. */
    twostate predicate OnlyTimeouts()
      reads this
    {
      unchanged(`stmtSet, `lost, `callDepth, `abortPending, `inLogon, `serverAttached, `recvTimeout, `ocilibInit,
                `handleTimeout, `session, `live, `transaction, `closed, `executions, `calls, `ended, `closings, `faults)
    }

    /** What handling an error never changes, whatever it does to the session. */
    twostate predicate Kept()
      reads this, client
    {
      && stmtSet <= old(stmtSet) && callDepth == old(callDepth) && recvTimeout == old(recvTimeout)
      && executions == old(executions) && calls == old(calls) && inLogon == old(inLogon)
      && ocilibInit == old(ocilibInit) && old(session) <= session && old(faults) <= faults
      && old(ended) <= ended && old(timeouts) <= timeouts && old(client.Failed()) <= client.Failed()
      && (closed && !old(closed) ==> callDepth == 0)
      && (old(abortPending) ==> abortPending)
    }

    /** The statements keep their text and their bind nodes, unless they are freed. */
    twostate predicate TextsKept(stmts: set<Statement>)
      reads stmts
    {
      forall s :: s in stmts ==> s.TextKept()
    }

    /* ---- The statement registry ---- */

    /** Adds a statement to the registry; `holds` is the outcome of the assertion that it is not registered yet. */
    method RegisterStatement(stmt: Statement) returns (holds: bool)
      requires Valid() && stmt.conn == this && !stmt.deleted && stmt.sql.Some?
      modifies this`stmtSet
      ensures Valid() && stmtSet == old(stmtSet) + {stmt}
      ensures holds <==> stmtSet != old(stmtSet)
    {
      holds := stmt !in stmtSet;
      stmtSet := stmtSet + {stmt};
    }

    method DeregisterStatement(stmt: Statement)
      modifies this`stmtSet
      ensures stmtSet == old(stmtSet) - {stmt}
    {
      if stmt in stmtSet {
        stmtSet := stmtSet - {stmt};
      }
    }

    /** Frees all registered statements; the loop ends with an empty registry. */
    method ResetStatements()
      requires forall s :: s in stmtSet ==> s.conn == this
      modifies this`stmtSet, stmtSet
      ensures TextsKept(old(stmtSet))
      ensures stmtSet == {}
      ensures forall s :: s in old(stmtSet) ==> s.Cleared() && s.sql == None && s.deleted == old(s.deleted)
    {
      while stmtSet != {}
        invariant stmtSet <= old(stmtSet) && forall s :: s in stmtSet ==> s.conn == this
        invariant forall s :: s in stmtSet ==> s.deleted == old(s.deleted)
        invariant forall s :: s in old(stmtSet) - stmtSet ==>
          s.Cleared() && s.sql == None && s.deleted == old(s.deleted)
        decreases stmtSet
      {
        var stmt: Statement :| stmt in stmtSet;
        stmt.Reset();
        DeregisterStatement(stmt);
      }
    }

    /** Frees the session state of all registered statements and of `stmt`. */
    method ClearStatements(stmt: Statement?)
      requires forall s :: s in stmtSet ==> s.conn == this
      modifies stmtSet, Current(stmt)
      ensures TextsKept(old(stmtSet) + Current(stmt))
      ensures forall s :: s in stmtSet + Current(stmt) ==>
        s.Cleared() && s.sql == old(s.sql) && s.deleted == old(s.deleted) && |s.binds| == |old(s.binds)|
    {
      var tmp := stmtSet;
      while tmp != {}
        invariant tmp <= stmtSet
        invariant forall s :: s in stmtSet + Current(stmt) ==>
          s.sql == old(s.sql) && s.deleted == old(s.deleted) && |s.binds| == |old(s.binds)|
        invariant forall s :: s in stmtSet - tmp ==> s.Cleared()
        decreases tmp
      {
        var s :| s in tmp;
        tmp := tmp - {s};
        s.Clear();
      }
      if stmt != null && stmt !in stmtSet {
        stmt.Clear();
      }
    }

    /* ---- The session ---- */

    /** Ends the session, and detaches from the server whether or not that worked. */
    method Logoff()
      requires History() && OnTime()
      modifies this
      ensures History() && OnlySession() && !live && !serverAttached && timeouts == old(timeouts)
      ensures session == old(session) && handleTimeout == old(handleTimeout) && inLogon == old(inLogon)
      ensures ended == old(ended) + if old(live) then {session} else {}
    {
      hide Sound, Blameless;
      if live {
        ended := ended + {session};
      }
      live, serverAttached := false, false;
    }

    /** Detaches from the server without ending the session, on which the receive timeout ended a call. */
    method AbandonSession()
      requires History() && (live ==> Timeout(session, InCall) in timeouts)
      modifies this`live, this`serverAttached
      ensures History() && !live && !serverAttached
    {
      hide Sound, Blameless;
      live, serverAttached := false, false;
    }

    /** The datasource closes all statements and deletes the connection. */
    method ConnectionAborted()
      requires Registry() && History() && OnTime() && !closed && callDepth == 0 && client.Failed() > 0
      modifies this, stmtSet
      ensures TextsKept(old(stmtSet))
      ensures Valid() && closed && stmtSet == {} && Kept()
      ensures session == old(session) && lost == old(lost) && timeouts == old(timeouts)
      ensures ended == old(ended) + if old(live) then {session} else {}
    {
      hide Sound, History;
      ResetStatements();
      Logoff();
      MarkClosed();
    }

    method MarkClosed()
      requires History() && !closed && callDepth == 0 && client.Failed() > 0
      modifies this`closed, this`transaction, this`closings
      ensures History() && closed
    {
      hide Sound, Settled;
      closed, transaction := true, false;
      closings := closings + [callDepth];
    }

    /** Closes a connection that could not be made again; within a guarded call, when that call has ended. */
    method AbortConnection()
      requires Registry() && History() && OnTime() && !closed && client.Failed() > 0
      modifies this, stmtSet
      ensures TextsKept(old(stmtSet))
      ensures Valid() && stmtSet == {} && Kept() && session == old(session) && lost == old(lost)
      ensures timeouts == old(timeouts)
      ensures if callDepth > 0 then abortPending && !closed && live == old(live) && ended == old(ended)
              else closed && ended == old(ended) + if old(live) then {session} else {}
    {
      hide Sound;
      ResetStatements();
      if callDepth > 0 {
        abortPending := true;
        return;
      }
      ConnectionAborted();
    }

    /* ---- The call guard ---- */

    method EnterCall()
      requires Valid() && !closed
      modifies this`callDepth
      ensures Valid() && callDepth == old(callDepth) + 1
    {
      callDepth := callDepth + 1;
    }

    /** The outermost call closes a connection that was lost during it. */
    method LeaveCall()
      requires Valid() && !closed && callDepth > 0
      modifies this, stmtSet
      ensures TextsKept(old(stmtSet))
      ensures Valid() && callDepth == old(callDepth) - 1 && inLogon == old(inLogon) && stmtSet <= old(stmtSet)
      ensures closed <==> old(abortPending) && callDepth == 0
      ensures !closed ==> stmtSet == old(stmtSet) && abortPending == old(abortPending) && live == old(live)
      ensures executions == old(executions) && calls == old(calls) && faults >= old(faults)
      ensures old(ended) <= ended && old(timeouts) <= timeouts
    {
      hide Sound;
      callDepth := callDepth - 1;
      if callDepth == 0 && abortPending {
        abortPending := false;
        ConnectionAborted();
      }
    }

    /* ---- Callbacks of the datasource ---- */

    /** The datasource frees the session state of the statements that it knows, which may be any of these. */
    method ConnectionLost(stmt: Statement?)
      modifies this`transaction, stmtSet, Current(stmt)
      ensures TextsKept(old(stmtSet) + Current(stmt))
      ensures forall s :: s in stmtSet + Current(stmt) ==>
        s.sql == old(s.sql) && s.deleted == old(s.deleted) && |s.binds| == |old(s.binds)|
          && (old(s.Cleared()) ==> s.Cleared())
    {
      transaction := *;
      var tmp := stmtSet + Current(stmt);
      while tmp != {}
        invariant tmp <= stmtSet + Current(stmt)
        invariant forall s :: s in stmtSet + Current(stmt) ==>
          s.sql == old(s.sql) && s.deleted == old(s.deleted) && |s.binds| == |old(s.binds)|
            && (old(s.Cleared()) ==> s.Cleared())
        decreases tmp
      {
        var s :| s in tmp;
        tmp := tmp - {s};
        if * {
          s.Clear();
        }
      }
    }

    /** The datasource closes and deletes the statements that it knows, which may be any of these. */
    method ConnectionRecovered(stmt: Statement?)
      requires Valid() && (stmt != null ==> stmt.conn == this)
      modifies this`transaction, this`stmtSet, stmtSet, Current(stmt)
      ensures TextsKept(old(stmtSet) + Current(stmt))
      ensures Valid() && stmtSet <= old(stmtSet)
      ensures forall s :: s in stmtSet && old(s.Cleared()) ==> s.Cleared()
    {
      hide Sound, History;
      transaction := *;
      var tmp := stmtSet + Current(stmt);
      while tmp != {}
        invariant Valid() && stmtSet <= old(stmtSet) && tmp <= old(stmtSet) + Current(stmt)
        invariant TextsKept(old(stmtSet) + Current(stmt))
        invariant forall s :: s in old(stmtSet) && old(s.Cleared()) ==> s.Cleared()
        decreases tmp
      {
        var s :| s in tmp;
        tmp := tmp - {s};
        if * {
          CloseStatement(s);
        }
      }
    }

    /* ---- Errors ---- */

    /** How deep the calls of an error handler can nest: handling a lost connection logs on and binds the statements
        again, and their errors are handled in turn, but an error of the logon ends there. */
    function Depth(canRetry: bool): nat
      reads this
    {
      if inLogon then 0 else if canRetry then 6 else 3
    }

    /** The error handler pings the server. */
    predicate Pings(code: nat)
      reads this
    {
      !inLogon && code != RECEIVE_TIMEOUT && !LostCode(code) && ocilibInit
    }

    /** An error outside a logon, other than a receive timeout, shows that the connection is lost by its code or by
        a ping that fails. */
    predicate ShowsLoss(code: nat, ping: Status)
      reads this
    {
      !inLogon && code != RECEIVE_TIMEOUT && (LostCode(code) || (Pings(code) && !Succeeds(ping)))
    }

    /** The receive timeout ends the ping of the error handler. */
    predicate PingTimesOut(code: nat, ping: Status)
      reads this
    {
      live && Pings(code) && ping == Error(RECEIVE_TIMEOUT)
    }

    /** An error after which a connection cannot stay, unless its call is executed again. */
    predicate Loses(code: nat, h: Handling)
      reads this
    {
      && !inLogon
      && (ShowsLoss(code, h.ping) || (code == RECEIVE_TIMEOUT && !LogsOn(recvTimeout, h.logon)))
    }

    predicate ClosedOrPending()
      reads this
    {
      closed || abortPending
    }

    /** Records a status that arrives when the receive timeout has ended a call on the session. */
    ghost method Arrive(status: Status)
      requires Valid() && (status.Error? ==> inLogon || client.Failed() > 0)
      modifies this`timeouts
      ensures timeouts == old(timeouts) +
        TimeoutIf(status == Error(RECEIVE_TIMEOUT) && live, session, if inLogon then InLogon else InCall)
      ensures if status.Error? then Arrived(status.code) else Valid()
      ensures status != Error(RECEIVE_TIMEOUT) ==> unchanged(this)
    {
      hide Sound, Blameless;
      if status == Error(RECEIVE_TIMEOUT) && live {
        timeouts := timeouts + {Timeout(session, if inLogon then InLogon else InCall)};
      }
    }

    /** What the handler of an error does to the session outside a logon, if the call cannot be executed again. */
    twostate predicate SessionAfter(code: nat, h: Handling)
      reads this
    {
      && (closed <==> callDepth == 0 && old(Loses(code, h)))
      && (old(live && ShowsLoss(code, h.ping)) && callDepth == 0 ==> old(session) in ended)
      && (old(PingTimesOut(code, h.ping)) ==> Timeout(old(session), InPing) in timeouts)
      && (code == RECEIVE_TIMEOUT ==> EndsAsTimedOut(h.logon))
    }

    /** Checks the status of an OCI call; after an error the connection may be another one. */
    method CheckErr(status: Status, h: Handling, sink: bool) returns (ok: bool, sink': bool)
      requires Valid() && !closed && (Succeeds(status) || inLogon || client.Failed() > 0)
      modifies this, client, stmtSet
      ensures TextsKept(old(stmtSet))
      ensures Valid() && Kept() && unchanged(client)
      ensures ok <==> Succeeds(status)
      ensures ok ==> unchanged(this) && forall s :: s in stmtSet ==> unchanged(s)
      ensures old(inLogon) ==>
        && OnlyTimeouts() && (forall s :: s in stmtSet ==> unchanged(s))
        && timeouts == old(timeouts) + TimeoutIf(status == Error(RECEIVE_TIMEOUT) && live, session, InLogon)
      ensures !old(inLogon) && status == Error(RECEIVE_TIMEOUT) && old(live) ==>
        Timeout(old(session), InCall) in timeouts
      ensures !old(inLogon) && status.Error? ==> SessionAfter(status.code, h)
      ensures status == OtherFailure ==> !closed
      ensures if ok then sink' == sink else sink'
      decreases Depth(false), 2
    {
      hide Sound, History;
      ok, sink' := false, true;
      Arrive(status);
      match status {
        case Success | SuccessWithInfo =>
          ok, sink' := true, sink;
        case Error(code) =>
          var again;
          again, sink' := HandleError(false, null, code, h, sink);
        case OtherFailure =>
      }
    }

    /** Handles an error; `again` says that the call that failed can be executed again. */
    method HandleError(canRetry: bool, stmt: Statement?, code: nat, h: Handling, sink: bool)
      returns (again: bool, sink': bool)
      requires Arrived(code) && !closed
      requires stmt != null ==> stmt.conn == this && !stmt.deleted && stmt.sql.Some?
      modifies this, client, stmtSet, Current(stmt)
      ensures TextsKept(old(stmtSet) + Current(stmt))
      ensures Valid() && Kept() && (!canRetry ==> unchanged(client))
      ensures again <==>
        && canRetry && old(ShowsLoss(code, h.ping)) && !old(transaction) && !sink
        && LogsOn(old(recvTimeout), h.logon) && faults == old(faults)
      ensures again ==>
        && !sink' && old(session) < session && live && !lost && !closed && stmtSet == old(stmtSet)
        && forall s :: s in stmtSet + Current(stmt) ==> s.Usable(session) && s.SameText() && !s.deleted
      ensures !again ==> sink'
      ensures old(ShowsLoss(code, h.ping)) ==> ClosedOrPending() || old(session) < session
      ensures old(live && ShowsLoss(code, h.ping)) && (canRetry || callDepth == 0) ==> old(session) in ended
      ensures old(PingTimesOut(code, h.ping)) ==> Timeout(old(session), InPing) in timeouts
      ensures old(ShowsLoss(code, h.ping)) && !canRetry ==>
        stmtSet == {} && lost && if callDepth > 0 then abortPending else closed
      ensures !old(inLogon) && !canRetry ==> SessionAfter(code, h)
      ensures !old(inLogon) && code == RECEIVE_TIMEOUT ==>
        && (ClosedOrPending() || old(session) < session)
        && (forall s :: s in stmtSet ==> s.Cleared())
      ensures !old(inLogon) && (code == RECEIVE_TIMEOUT || (old(ShowsLoss(code, h.ping)) && canRetry)) ==>
        EndsAsTimedOut(h.logon)
      ensures old(inLogon) || !(old(ShowsLoss(code, h.ping)) || code == RECEIVE_TIMEOUT) ==>
        && unchanged(this) && (forall s :: s in stmtSet ==> unchanged(s)) && (stmt != null ==> unchanged(stmt))
      decreases Depth(canRetry), 1
    {
      hide Sound, History;
      again, sink' := false, true;
      if inLogon {
        return;
      }
      if code == RECEIVE_TIMEOUT {
        HandleTimeout(stmt, h.logon);
        return;
      }
      var isLost := LostCode(code);
      if !isLost && ocilibInit {
        isLost := Ping(h.ping);
      }
      if !isLost {
        return;
      }
      again, sink' := HandleLoss(canRetry, stmt, h.logon, sink);
    }

    /** Makes a lost connection again for a call that can be executed again, and closes it otherwise. */
    method HandleLoss(canRetry: bool, stmt: Statement?, replies: LogonReplies, sink: bool)
      returns (again: bool, sink': bool)
      requires Registry() && History() && OnTime() && !closed && !inLogon && client.Failed() > 0
      requires stmt != null ==> stmt.conn == this && !stmt.deleted && stmt.sql.Some?
      modifies this, client, stmtSet, Current(stmt)
      ensures TextsKept(old(stmtSet) + Current(stmt))
      ensures Valid() && Kept() && (!canRetry ==> unchanged(client))
      ensures again <==>
        canRetry && !old(transaction) && !sink && LogsOn(old(recvTimeout), replies) && faults == old(faults)
      ensures again ==>
        && !sink' && old(session) < session && live && !lost && !closed && stmtSet == old(stmtSet)
        && forall s :: s in stmtSet + Current(stmt) ==> s.Usable(session) && s.SameText() && !s.deleted
      ensures !again ==> sink'
      ensures ClosedOrPending() || old(session) < session
      ensures old(live) && (canRetry || callDepth == 0) ==> old(session) in ended
      ensures if canRetry then EndsAsTimedOut(replies)
              else stmtSet == {} && lost && if callDepth > 0 then abortPending && !closed else closed
      decreases Depth(canRetry), 0
    {
      hide Sound, History;
      lost := true;
      sink' := sink || transaction;
      ClearStatements(stmt);
      ConnectionLost(stmt);
      if canRetry {
        again, sink' := Reconnect(stmt, replies, sink');
      } else {
        again, sink' := false, true;
        AbortConnection();
      }
    }

    /** Pings the server; an exception of the ping is dropped, so its receive timeout is not handled. */
    method Ping(status: Status) returns (fails: bool)
      requires Registry() && History() && OnTime()
      modifies this`timeouts
      ensures Registry() && History() && OnTime()
      ensures fails <==> !Succeeds(status)
      ensures timeouts == old(timeouts) + TimeoutIf(status == Error(RECEIVE_TIMEOUT) && live, session, InPing)
      ensures !fails ==> unchanged(this)
    {
      hide Sound, Blameless;
      fails := !Succeeds(status);
      if status == Error(RECEIVE_TIMEOUT) && live {
        timeouts := timeouts + {Timeout(session, InPing)};
      }
    }

    /** If the session of the logon that makes the connection again times out, it is ended when the connection is
        closed, which is now unless a guarded call is in progress. */
    twostate predicate EndsAsTimedOut(replies: LogonReplies)
      reads this
    {
      SessionTimesOut(old(recvTimeout), replies) ==>
        && session == old(session) + 1 && Timeout(session, InLogon) in timeouts && Timeout(session, InCall) !in timeouts
        && if callDepth > 0 then abortPending && live else closed && session in ended
    }

    /** Logs on after a session has gone, or closes the connection. */
    method LogonAgain(replies: LogonReplies) returns (ok: bool)
      requires Registry() && History() && !closed && !inLogon && !live && client.Failed() > 0
      modifies this, client, stmtSet
      ensures TextsKept(old(stmtSet))
      ensures Registry() && History() && OnTime() && Kept() && unchanged(client) && (!ok ==> Valid())
      ensures ok <==> LogsOn(old(recvTimeout), replies)
      ensures ok ==>
        && OnlySession() && live && serverAttached && handleTimeout == recvTimeout && session == old(session) + 1
        && forall s :: s in stmtSet ==> unchanged(s)
      ensures !ok ==> stmtSet == {} && if callDepth > 0 then abortPending && !closed else closed
      ensures EndsAsTimedOut(replies)
      decreases 1, 1
    {
      hide Sound, History;
      var sink;
      ok, sink := Logon(replies, false);
      if !ok {
        AbortConnection();
      }
    }

    /** Makes a lost connection again and binds its statements on the new session, unless there was an exception. */
    method Reconnect(stmt: Statement?, replies: LogonReplies, sink: bool) returns (again: bool, sink': bool)
      requires Registry() && History() && OnTime() && !closed && !inLogon && client.Failed() > 0
      requires stmt != null ==> stmt.conn == this && !stmt.deleted && stmt.sql.Some?
      requires forall s :: s in stmtSet + Current(stmt) ==> s.Cleared()
      modifies this, client, stmtSet, Current(stmt)
      ensures TextsKept(old(stmtSet) + Current(stmt))
      ensures Valid() && Kept() && (old(live) ==> old(session) in ended)
      ensures again <==> !sink && LogsOn(old(recvTimeout), replies) && faults == old(faults)
      ensures again ==>
        && !sink' && old(session) < session && live && !lost && !closed && stmtSet == old(stmtSet)
        && forall s :: s in stmtSet + Current(stmt) ==> s.Usable(session) && s.SameText() && !s.deleted
      ensures !again ==> sink'
      ensures (ClosedOrPending() || old(session) < session) && EndsAsTimedOut(replies)
      decreases 5, 2
    {
      hide Sound, History;
      Logoff();
      var ok := LogonAgain(replies);
      again, sink' := false, true;
      if !ok {
        return;
      }
      again, sink' := Resume(stmt, sink);
    }

    /** The connection has a new session: its statements are bound on it, or, after an exception, closed. */
    method Resume(stmt: Statement?, sink: bool) returns (again: bool, sink': bool)
      requires Registry() && History() && OnTime() && !closed && !inLogon
      requires live && serverAttached && handleTimeout == recvTimeout
      requires stmt != null ==> stmt.conn == this && !stmt.deleted && stmt.sql.Some?
      requires forall s :: s in stmtSet + Current(stmt) ==> s.Cleared()
      modifies this, client, stmtSet, Current(stmt)
      ensures TextsKept(old(stmtSet) + Current(stmt))
      ensures Valid() && Kept()
      ensures again <==> !sink && faults == old(faults)
      ensures again ==>
        && !sink' && session == old(session) && live && !lost && !closed && stmtSet == old(stmtSet)
        && forall s :: s in stmtSet + Current(stmt) ==> s.Usable(session) && s.SameText() && !s.deleted
      ensures !again ==> sink'
      decreases 5, 1
    {
      hide Sound, History;
      again, sink' := false, true;
      lost := false;
      if sink {
        ConnectionRecovered(stmt);
        return;
      }
      again, sink' := BindAllAgain(stmt);
    }

    /** Frees what belongs to the timed-out session, and leaves it without ending it. */
    method DropSession(stmt: Statement?)
      requires Registry() && History() && (live ==> Timeout(session, InCall) in timeouts)
      requires stmt != null ==> stmt.conn == this && !stmt.deleted && stmt.sql.Some?
      modifies this`transaction, this`live, this`serverAttached, stmtSet, Current(stmt)
      ensures TextsKept(old(stmtSet) + Current(stmt))
      ensures Registry() && History() && !live
      ensures forall s :: s in stmtSet ==> s.Cleared()
    {
      hide Sound, History;
      ClearStatements(null);
      ConnectionLost(stmt);
      AbandonSession();
    }

    /** Makes the connection again after the receive timeout ended a call; the call is not executed again. */
    method HandleTimeout(stmt: Statement?, replies: LogonReplies)
      requires Arrived(RECEIVE_TIMEOUT) && !closed && !inLogon
      requires stmt != null ==> stmt.conn == this && !stmt.deleted && stmt.sql.Some?
      modifies this, client, stmtSet, Current(stmt)
      ensures TextsKept(old(stmtSet) + Current(stmt))
      ensures Valid() && Kept() && unchanged(client)
      ensures (ClosedOrPending() || old(session) < session) && EndsAsTimedOut(replies)
      ensures closed <==> callDepth == 0 && !LogsOn(old(recvTimeout), replies)
      ensures forall s :: s in stmtSet ==> s.Cleared()
      decreases 2, 0
    {
      hide Sound, History;
      DropSession(stmt);
      var ok := LogonAgain(replies);
      if !ok {
        return;
      }
      ConnectionRecovered(stmt);
    }

    /* ---- The logon ---- */

    /** Attaches to the server and begins a session; the receive timeout of the option is set on the server handle. */
    method Logon(r: LogonReplies, sink: bool) returns (ok: bool, sink': bool)
      requires Registry() && History() && !closed && !inLogon && !live
      modifies this, client, stmtSet
      ensures TextsKept(old(stmtSet))
      ensures Registry() && History() && OnTime() && OnlySession() && !inLogon && ended == old(ended)
        && unchanged(client)
      ensures forall s :: s in stmtSet ==> unchanged(s)
      ensures ok <==> LogsOn(recvTimeout, r)
      ensures LogonEffect(r)
      ensures ok ==> serverAttached && handleTimeout == recvTimeout
      ensures if ok then sink' == sink else sink'
      decreases 1, 0
    {
      hide Sound, History;
      inLogon := true;
      ok, sink' := LogonSteps(r, sink);
      inLogon := false;
    }

    /** A logon that begins a session leaves it running, even if a later step fails, and records its timeout. */
    twostate predicate LogonEffect(r: LogonReplies)
      reads this
    {
      && session == old(session) + (if Begins(recvTimeout, r) then 1 else 0) && (live <==> Begins(recvTimeout, r))
      && timeouts == old(timeouts) + TimeoutIf(SessionTimesOut(recvTimeout, r), session, InLogon)
    }

    method LogonSteps(r: LogonReplies, sink: bool) returns (ok: bool, sink': bool)
      requires Valid() && !closed && inLogon && !live
      modifies this, client, stmtSet
      ensures TextsKept(old(stmtSet))
      ensures Valid() && OnlySession() && inLogon && ended == old(ended) && unchanged(client)
      ensures forall s :: s in stmtSet ==> unchanged(s)
      ensures ok <==> LogsOn(recvTimeout, r)
      ensures LogonEffect(r)
      ensures ok ==> serverAttached && handleTimeout == recvTimeout
      ensures if ok then sink' == sink else sink'
      decreases 0, 5
    {
      hide Sound, History;
      ok, sink' := Attach(r, sink);
      if !ok {
        return;
      }
      ok, sink' := Begin(r, sink);
      if !ok {
        return;
      }
      ok, sink' := ClientStep(r.useSession, NO_HANDLING, sink); // the session in the service context
      if !ok {
        return;
      }
      ok, sink' := ClientStep(r.sql, NO_HANDLING, sink); // the preparation and the execution of the session SQL
    }

    /** Puts the server into the service context and begins the session. */
    method Begin(r: LogonReplies, sink: bool) returns (ok: bool, sink': bool)
      requires Valid() && !closed && inLogon && !live && serverAttached
      modifies this, client, stmtSet
      ensures TextsKept(old(stmtSet))
      ensures Valid() && OnlySession() && inLogon && ended == old(ended) && timeouts == old(timeouts)
        && unchanged(client)
      ensures forall s :: s in stmtSet ==> unchanged(s)
      ensures ok <==> Passes(r.context) && Succeeds(r.begin) && !r.beginInterrupted
      ensures session == old(session) + if live then 1 else 0
      ensures live <==> Passes(r.context) && Succeeds(r.begin)
      ensures serverAttached && handleTimeout == old(handleTimeout)
      ensures if ok then sink' == sink else sink'
      decreases 0, 4
    {
      hide Sound, History;
      ok, sink' := ClientStep(r.context, NO_HANDLING, sink); // with a check for an interrupt
      if !ok {
        return;
      }
      if Succeeds(r.begin) {
        BeginSession();
      }
      if r.beginInterrupted {
        return false, true;
      }
      ok, sink' := CheckErr(r.begin, NO_HANDLING, sink);
    }

    method BeginSession()
      requires Valid() && !live && serverAttached && inLogon
      modifies this`session, this`live
      ensures Valid() && live && session == old(session) + 1
    {
      hide Sound, Blameless;
      session, live := session + 1, true;
    }

    /** Attaches to the server. */
    method Attach(r: LogonReplies, sink: bool) returns (ok: bool, sink': bool)
      requires Valid() && !closed && inLogon && !live
      modifies this, client, stmtSet
      ensures TextsKept(old(stmtSet))
      ensures Valid() && OnlySession() && inLogon && !live && timeouts == old(timeouts)
      ensures session == old(session) && ended == old(ended) && unchanged(client)
      ensures forall s :: s in stmtSet ==> unchanged(s)
      ensures ok <==> Attaches(recvTimeout, r)
      ensures ok ==> serverAttached && handleTimeout == recvTimeout
      ensures if ok then sink' == sink else sink'
      decreases 0, 4
    {
      hide Past;
      ok, sink' := ClientStep(r.credentials, NO_HANDLING, sink); // user name and password, and a check for an interrupt
      if !ok {
        return;
      }
      if r.forgets {
        handleTimeout := 0; // the attribute of the handle may or may not outlast a detach
      }
      if r.attachInterrupted {
        return false, true;
      }
      ok, sink' := CheckErr(r.attach, NO_HANDLING, sink);
      if !ok {
        return;
      }
      Attached();
      if recvTimeout != 0 {
        ok, sink' := ApplyRecvTimeout(recvTimeout, r.timeout, NO_HANDLING, sink);
      }
    }

    method Attached()
      requires Valid() && inLogon && !live
      modifies this`serverAttached
      ensures Valid() && serverAttached
    {
      hide Sound, Blameless, Settled;
      serverAttached := true;
    }

    /** Sets the receive timeout on the server handle; a call that fails leaves the attribute as it is. */
    method ApplyRecvTimeout(ms: nat, status: Status, h: Handling, sink: bool) returns (ok: bool, sink': bool)
      requires Valid() && !closed && (Succeeds(status) || inLogon || client.Failed() > 0)
      modifies this, client, stmtSet
      ensures TextsKept(old(stmtSet))
      ensures unchanged(client)
      ensures ok <==> Succeeds(status)
      ensures ok || (old(inLogon) && !old(live)) ==>
        && OnlySession() && session == old(session) && live == old(live) && serverAttached == old(serverAttached)
        && inLogon == old(inLogon) && ended == old(ended) && timeouts == old(timeouts)
        && forall s :: s in stmtSet ==> unchanged(s)
      ensures ok ==> handleTimeout == ms && Registry() && Past() && OnTime()
      ensures !ok ==> Valid() && Kept()
      ensures if ok then sink' == sink else sink'
      decreases Depth(false), 3
    {
      hide Past;
      ok, sink' := CheckErr(status, h, sink);
      if ok {
        handleTimeout := ms;
      }
    }

    /** A step in the client that an interrupt, the client itself or OCI may fail. */
    method ClientStep(reply: Reply, h: Handling, sink: bool) returns (ok: bool, sink': bool)
      requires Valid() && !closed && (Passes(reply) || inLogon || client.Failed() > 0)
      modifies this, client, stmtSet
      ensures TextsKept(old(stmtSet))
      ensures Valid() && Kept() && unchanged(client)
      ensures ok <==> Passes(reply)
      ensures ok ==> unchanged(this) && forall s :: s in stmtSet ==> unchanged(s)
      ensures old(inLogon) ==>
        && OnlyTimeouts() && (forall s :: s in stmtSet ==> unchanged(s))
        && timeouts == old(timeouts) + TimeoutIf(reply == TIMED_OUT && live, session, InLogon)
      ensures !old(inLogon) ==> AfterReply(reply, h)
      ensures if ok then sink' == sink else sink'
      decreases Depth(false), 3
    {
      hide Sound, History;
      if reply == Interrupted {
        return false, true;
      }
      ok, sink' := CheckErr(reply.status, h, sink);
    }

    /** What the answer to a call does to the session outside a logon. */
    twostate predicate AfterReply(reply: Reply, h: Handling)
      reads this
    {
      if reply.Answer? && reply.status.Error? then SessionAfter(reply.status.code, h) else !closed
    }

    /** The next answer of the client; a fault is counted unless the call is an execution. */
    method Ask(counted: bool) returns (r: Response)
      requires Valid() && !closed
      modifies this`faults, client
      ensures Valid() && r == old(client.Upcoming()) && client.asked == old(client.asked) + 1
      ensures faults == old(faults) + if counted && !Passes(r.reply) then 1 else 0
      ensures old(client.Failed()) <= client.Failed() && (!Passes(r.reply) ==> client.Failed() > 0)
    {
      hide Sound, Failures;
      r := client.Next();
      if counted && !Passes(r.reply) {
        faults := faults + 1;
      }
    }

    /** A call into the client outside a logon. */
    method ClientCall(sink: bool) returns (ok: bool, sink': bool)
      requires Valid() && !closed && !inLogon
      modifies this, client, stmtSet
      ensures TextsKept(old(stmtSet))
      ensures Valid() && Kept() && client.asked == old(client.asked) + 1
      ensures ok <==> Passes(old(client.Upcoming()).reply)
      ensures ok ==> unchanged(this) && forall s :: s in stmtSet ==> unchanged(s)
      ensures !ok ==> old(faults) < faults
      ensures AfterReply(old(client.Upcoming()).reply, old(client.Upcoming()).handling)
      ensures if ok then sink' == sink else sink'
      decreases Depth(false), 4
    {
      hide Sound, History;
      var r := Ask(true);
      ok, sink' := ClientStep(r.reply, r.handling, sink);
    }

    /** A call whose status does not come to the error handler: OCILIB raises an exception of its own, or the status is
        not looked at. Its receive timeout leaves the session running. */
    method UnhandledCall(ignored: bool, sink: bool) returns (ok: bool, sink': bool)
      requires Valid() && !closed && !inLogon
      modifies this`timeouts, this`faults, client
      ensures Valid() && client.asked == old(client.asked) + 1 && old(client.Failed()) <= client.Failed()
      ensures ok <==> Passes(old(client.Upcoming()).reply)
      ensures timeouts == old(timeouts) +
        TimeoutIf(old(client.Upcoming()).reply == TIMED_OUT && live, session, Unhandled)
      ensures faults == old(faults) + if ok then 0 else 1
      ensures sink' == (sink || (!ok && !ignored))
    {
      hide Sound, Blameless;
      var r := Ask(true);
      ok := Passes(r.reply);
      sink' := sink || (!ok && !ignored);
      if r.reply == TIMED_OUT && live {
        timeouts := timeouts + {Timeout(session, Unhandled)};
      }
    }

    /* ---- Statements on the new session ---- */

    /** Prepares and binds all registered statements and `stmt` on the new session. */
    method BindAllAgain(stmt: Statement?) returns (ok: bool, sink': bool)
      requires Valid() && !closed && !inLogon
      requires stmt != null ==> stmt.conn == this && !stmt.deleted && stmt.sql.Some?
      requires forall s :: s in stmtSet + Current(stmt) ==> s.Cleared()
      modifies this, client, stmtSet, Current(stmt)
      ensures TextsKept(old(stmtSet) + Current(stmt))
      ensures Valid() && Kept()
      ensures ok ==>
        && unchanged(this) && !sink'
        && forall s :: s in stmtSet + Current(stmt) ==> s.Usable(session) && s.SameText() && !s.deleted
      ensures !ok ==> sink' && old(faults) < faults
      decreases 5, 0
    {
      hide Sound, History;
      ok, sink' := BindRegistered();
      if ok && stmt != null && stmt !in stmtSet {
        ok, sink' := BindAgain(stmt);
      }
    }

    method BindRegistered() returns (ok: bool, sink': bool)
      requires Valid() && !closed && !inLogon
      requires forall s :: s in stmtSet ==> s.Cleared()
      modifies this, client, stmtSet
      ensures TextsKept(old(stmtSet))
      ensures Valid() && Kept()
      ensures ok ==>
        unchanged(this) && !sink' && forall s :: s in stmtSet ==> s.Usable(session) && s.SameText() && !s.deleted
      ensures !ok ==> sink' && old(faults) < faults
      decreases 4, 3
    {
      hide Sound, History;
      var tmp := stmtSet;
      ok, sink' := true, false;
      while ok && tmp != {}
        invariant Valid() && Kept() && TextsKept(old(stmtSet))
        invariant ok ==> unchanged(this) && !sink' && !closed && tmp <= stmtSet
        invariant ok ==> forall s :: s in stmtSet ==> s.SameText() && !s.deleted
        invariant ok ==> forall s :: s in tmp ==> s.Cleared()
        invariant ok ==> forall s :: s in stmtSet - tmp ==> s.Usable(session)
        invariant !ok ==> sink' && old(faults) < faults
        decreases tmp
      {
        var s :| s in tmp;
        tmp := tmp - {s};
        ok, sink' := BindAgain(s);
      }
    }

    /** Allocates a handle for the statement, and prepares and binds it on the current session. */
    method BindAgain(stmt: Statement) returns (ok: bool, sink': bool)
      requires Valid() && !closed && !inLogon
      requires stmt.conn == this && !stmt.deleted && stmt.sql.Some? && stmt.Cleared()
      modifies this, client, stmtSet, stmt
      ensures TextsKept(old(stmtSet) + {stmt})
      ensures Valid() && Kept()
      ensures ok ==>
        && unchanged(this) && !sink' && stmt.Usable(session) && stmt.sql == old(stmt.sql) && !stmt.deleted
        && |stmt.binds| == |old(stmt.binds)| && forall s :: s in stmtSet && s != stmt ==> unchanged(s)
      ensures !ok ==> sink' && old(faults) < faults
      decreases 4, 2
    {
      hide Sound, History;
      ok, sink' := ClientCall(false);
      if !ok {
        return;
      }
      stmt.handle := true;
      ok, sink' := PrepareHandle(stmt);
    }

    /** Prepares and binds a statement that has a handle on the current session. */
    method PrepareHandle(stmt: Statement) returns (ok: bool, sink': bool)
      requires Valid() && !closed && !inLogon
      requires stmt.conn == this && !stmt.deleted && stmt.sql.Some? && stmt.handle
      modifies this, client, stmtSet, stmt
      ensures TextsKept(old(stmtSet) + {stmt})
      ensures Valid() && Kept()
      ensures ok ==>
        && unchanged(this) && !sink' && stmt.Usable(session) && stmt.sql == old(stmt.sql) && !stmt.deleted
        && |stmt.binds| == |old(stmt.binds)| && forall s :: s in stmtSet && s != stmt ==> unchanged(s)
      ensures !ok ==> sink' && old(faults) < faults
      decreases 4, 1
    {
      hide Sound, History;
      ok, sink' := ClientCall(false);
      if !ok {
        return;
      }
      stmt.preparedOn := session;
      ok, sink' := BindNodes(stmt);
    }

    /** Binds the bind nodes of the statement one by one. */
    method BindNodes(stmt: Statement) returns (ok: bool, sink': bool)
      requires Valid() && !closed && !inLogon && stmt.conn == this
      modifies this, client, stmtSet, stmt
      ensures TextsKept(old(stmtSet) + {stmt})
      ensures Valid() && Kept()
      ensures ok ==>
        && unchanged(this) && !sink' && unchanged(stmt`sql, stmt`handle, stmt`preparedOn, stmt`defined, stmt`deleted)
        && |stmt.binds| == |old(stmt.binds)| && (forall i :: 0 <= i < |stmt.binds| ==> stmt.binds[i] == session)
        && forall s :: s in stmtSet && s != stmt ==> unchanged(s)
      ensures !ok ==> sink' && old(faults) < faults
      decreases 4, 0
    {
      hide Sound, History;
      var i := 0;
      ok, sink' := true, false;
      while ok && i < |stmt.binds|
        invariant Valid() && Kept() && TextsKept(old(stmtSet) + {stmt})
        invariant ok ==>
          && unchanged(this) && !sink' && unchanged(stmt`sql, stmt`handle, stmt`preparedOn, stmt`defined, stmt`deleted)
          && |stmt.binds| == |old(stmt.binds)| && forall s :: s in stmtSet && s != stmt ==> unchanged(s)
        invariant ok ==> i <= |stmt.binds| && forall j :: 0 <= j < i ==> stmt.binds[j] == session
        invariant !ok ==> sink' && old(faults) < faults
        decreases ok, |stmt.binds| - i
      {
        ok, sink' := ClientCall(sink');
        if ok {
          stmt.binds := stmt.binds[i := session];
          i := i + 1;
        }
      }
    }

    /* ---- Driver calls ---- */

    constructor (client: Client)
      ensures this.client == client && Registry() && History() && stmtSet == {} && callDepth == 0 && calls == 0
      ensures recvTimeout == 0 && faults == 0 && timeouts == {} && ended == {} && session == 0 && executions == []
      ensures !closed && !inLogon && !live && !lost && !abortPending && !ocilibInit && !serverAttached
    {
      this.client := client;
      stmtSet, lost, callDepth, abortPending, inLogon := {}, false, 0, false, false;
      serverAttached, recvTimeout, ocilibInit, handleTimeout, session, live := false, 0, false, 0, 0, false;
      transaction, closed, executions, calls, ended, timeouts, closings := false, false, [], 0, {}, {}, [];
      faults := 0;
    }

    /** Opens a connection: its handles are handlesMade, it logs on, and OCILIB is initialized. A connection that is not
        opened is deleted, which ends a session that it has begun. */
    static method Open(client: Client, handlesMade: bool, replies: LogonReplies, initialized: bool)
      returns (c: Connection, ok: bool)
      modifies client
      ensures unchanged(client) && fresh(c) && c.client == client && c.callDepth == 0 && !c.inLogon
      ensures ok <==> handlesMade && LogsOn(0, replies) && initialized
      ensures ok ==> c.Valid() && !c.closed && c.ocilibInit
      ensures !ok ==>
        && !c.live && !c.serverAttached
        && (handlesMade && Begins(0, replies) ==> c.session == 1 && c.ended == {1})
      ensures c.TimeoutsKept() && c.stmtSet == {} && c.executions == [] && c.calls == 0 && c.faults == 0
    {
      c := new Connection(client);
      ok := false;
      if handlesMade {
        var sink;
        ok, sink := c.Logon(replies, false);
      }
      if ok && initialized {
        c.ocilibInit := true;
      } else {
        ok := false;
        c.Logoff();
      }
      c.TimeoutsAreKept();
    }

    /** A driver call that executes statements gets its number. */
    ghost method NextCall()
      requires History()
      modifies this`calls
      ensures History() && calls == old(calls) + 1
      ensures Sound(executions) && forall i :: 0 <= i < |executions| ==> executions[i].call < old(calls)
    {
      hide Sound, Blameless;
      calls := calls + 1;
    }

    /** Records the first execution of the latest driver call. */
    ghost method RecordFirst(first: Execution)
      requires History() && first.call + 1 == calls && first.session <= session
      requires forall i :: 0 <= i < |executions| ==> executions[i].call < first.call
      requires Succeeds(first.status) || client.Failed() > 0
      modifies this`executions
      ensures History() && executions == old(executions) + [first]
    {
      hide Sound, MayRepeat;
      Appended(executions, [first], first.call);
      executions := executions + [first];
    }

    /** Records the second execution of the latest driver call. */
    ghost method RecordAgain(before: seq<Execution>, first: Execution, second: Execution)
      requires History() && executions == before + [first] && calls == first.call + 1
      requires Sound(before) && forall i :: 0 <= i < |before| ==> before[i].call < first.call
      requires second.call == first.call && first.session < second.session == session && second.ready
      requires first.status.Error? && first.status.code != RECEIVE_TIMEOUT && !first.transaction
      requires second.text == first.text && second.binds == first.binds && client.Failed() > 0
      modifies this`executions
      ensures History() && executions == before + [first] + [second] && MayRepeat(first, second)
    {
      hide Sound, MayRepeat;
      Repeated(before, first, second);
      executions := before + [first] + [second];
    }

    /** Sends a statement to the server. */
    method Send(stmt: Statement, ghost call: nat) returns (r: Response, ghost e: Execution)
      requires Valid() && !closed && stmt.sql.Some?
      modifies this`faults, client
      ensures Valid() && faults == old(faults) && r == old(client.Upcoming()) && old(client.Failed()) <= client.Failed()
      ensures Succeeds(e.status) || client.Failed() > 0
      ensures e == Execution(call, session, transaction, stmt.Usable(session), stmt.sql.value, |stmt.binds|,
                             StatusOf(r.reply))
    {
      hide History;
      r := Ask(false);
      e := Execution(call, session, transaction, stmt.Usable(session), stmt.sql.value, |stmt.binds|, StatusOf(r.reply));
    }

    /** Executes a statement, and executes it once more if its connection was lost and made again. */
    method Execute(stmt: Statement, sink: bool) returns (ok: bool, sink': bool, ghost added: seq<Execution>)
      requires Valid() && !closed && !inLogon && callDepth > 0
      requires stmt.conn == this && !stmt.deleted && stmt.sql.Some?
      modifies this, client, stmtSet, stmt
      ensures TextsKept(old(stmtSet) + {stmt})
      ensures Valid() && !closed && !inLogon && callDepth == old(callDepth) && stmtSet <= old(stmtSet)
      ensures calls == old(calls) + 1 && executions == old(executions) + added && faults >= old(faults)
      ensures CallOf(added, old(calls), old(stmt.sql.value), |old(stmt.binds)|, ok, faults > old(faults))
      ensures if ok then sink' == sink else sink'
    {
      hide Sound, MayRepeat, History;
      added := [];
      NextCall();
      assert Valid();
      ok, sink' := ClientCall(sink); // a check for an interrupt, and the session attributes of the thread
      if !ok {
        return;
      }
      ok, sink', added := ExecuteNow(stmt, sink');
    }

    /** Sends the statement of the latest driver call to the server, and handles an error. */
    method ExecuteNow(stmt: Statement, sink: bool) returns (ok: bool, sink': bool, ghost added: seq<Execution>)
      requires Valid() && !closed && !inLogon && callDepth > 0 && calls > 0
      requires stmt.conn == this && !stmt.deleted && stmt.sql.Some?
      requires Sound(executions) && forall i :: 0 <= i < |executions| ==> executions[i].call < calls - 1
      modifies this, client, stmtSet, stmt
      ensures TextsKept(old(stmtSet) + {stmt})
      ensures Valid() && !closed && !inLogon && callDepth == old(callDepth) && stmtSet <= old(stmtSet)
      ensures calls == old(calls) && executions == old(executions) + added && faults >= old(faults)
      ensures CallOf(added, calls - 1, old(stmt.sql.value), |old(stmt.binds)|, ok, false)
      ensures if ok then sink' == sink else sink'
    {
      hide Sound, MayRepeat, History, CallOf;
      ghost var before := executions;
      var r;
      ghost var first;
      r, first := Send(stmt, calls - 1);
      RecordFirst(first);
      ok, sink', added := CheckExecution(stmt, before, first, StatusOf(r.reply), r.handling, sink);
    }

    /** Checks the status of the execution `first`. */
    method CheckExecution(stmt: Statement, ghost before: seq<Execution>, ghost first: Execution, status: Status,
                          h: Handling, sink: bool)
      returns (ok: bool, sink': bool, ghost added: seq<Execution>)
      requires Valid() && !closed && !inLogon && callDepth > 0 && (Succeeds(status) || client.Failed() > 0)
      requires stmt.conn == this && !stmt.deleted && stmt.sql.Some?
      requires executions == before + [first] && calls == first.call + 1 && first.status == status
      requires Sound(before) && forall i :: 0 <= i < |before| ==> before[i].call < first.call
      requires first.session == session && first.transaction == transaction
      requires first.text == stmt.sql.value && first.binds == |stmt.binds|
      modifies this, client, stmtSet, stmt
      ensures TextsKept(old(stmtSet) + {stmt})
      ensures Valid() && !closed && !inLogon && callDepth == old(callDepth) && stmtSet <= old(stmtSet)
      ensures calls == old(calls) && executions == before + added && faults >= old(faults)
      ensures CallOf(added, first.call, first.text, first.binds, ok, false)
      ensures if ok then sink' == sink else sink'
    {
      hide Sound, MayRepeat, History, CallOf, Repeats;
      added := [first];
      OneExecution(first);
      if status.Error? {
        Arrive(status);
        ghost var second;
        ok, sink', second := ExecuteAgain(stmt, before, first, status.code, h, sink);
        if second.Some? {
          added := [first, second.value];
          assert before + [first] + [second.value] == before + added;
          TwoExecutions(first, second.value, ok);
        }
      } else {
        ok, sink' := CheckErr(status, h, sink);
      }
    }

    /** Handles the error of the execution `first`, and executes the statement again if it can be. */
    method ExecuteAgain(stmt: Statement, ghost before: seq<Execution>, ghost first: Execution, code: nat, h: Handling,
                        sink: bool)
      returns (ok: bool, sink': bool, ghost second: Option<Execution>)
      requires Arrived(code) && !closed && !inLogon && callDepth > 0
      requires stmt.conn == this && !stmt.deleted && stmt.sql.Some?
      requires executions == before + [first] && calls == first.call + 1 && first.status == Error(code)
      requires Sound(before) && forall i :: 0 <= i < |before| ==> before[i].call < first.call
      requires first.session == session && first.transaction == transaction
      requires first.text == stmt.sql.value && first.binds == |stmt.binds|
      modifies this, client, stmtSet, stmt
      ensures TextsKept(old(stmtSet) + {stmt})
      ensures Valid() && !closed && !inLogon && callDepth == old(callDepth) && stmtSet <= old(stmtSet)
      ensures calls == old(calls) && faults >= old(faults)
      ensures LostCode(code) && !old(transaction) && !sink && LogsOn(old(recvTimeout), h.logon) && faults == old(faults)
        ==> second.Some?
      ensures second == None ==> executions == before + [first] && !ok
      ensures second.Some? ==> executions == before + [first] + [second.value] && Repeats(first, second.value, ok)
      ensures if ok then sink' == sink else sink'
    {
      hide Sound, History, MayRepeat;
      second := None;
      ok, sink' := HandleError(true, stmt, code, h, sink);
      if ok {
        ok, sink' := ClientCall(sink');
      }
      if !ok {
        return;
      }
      ghost var again;
      ok, sink', again := SendAgain(stmt, before, first, sink');
      second := Some(again);
    }

    /** Sends a statement to the server again, on the new session. */
    method SendAgain(stmt: Statement, ghost before: seq<Execution>, ghost first: Execution, sink: bool)
      returns (ok: bool, sink': bool, ghost second: Execution)
      requires Valid() && !closed && !inLogon && callDepth > 0 && stmt.conn == this && stmt.Usable(session)
      requires executions == before + [first] && calls == first.call + 1
      requires Sound(before) && forall i :: 0 <= i < |before| ==> before[i].call < first.call
      requires first.status.Error? && first.status.code != RECEIVE_TIMEOUT && !first.transaction
      requires first.session < session && first.text == stmt.sql.value && first.binds == |stmt.binds|
      requires client.Failed() > 0
      modifies this, client, stmtSet, stmt
      ensures TextsKept(old(stmtSet) + {stmt})
      ensures Valid() && !closed && !inLogon && callDepth == old(callDepth) && stmtSet <= old(stmtSet)
      ensures calls == old(calls) && faults >= old(faults)
      ensures executions == before + [first] + [second] && Repeats(first, second, ok)
      ensures if ok then sink' == sink else sink'
    {
      hide Sound, History, MayRepeat;
      var r;
      r, second := Send(stmt, first.call);
      RecordAgain(before, first, second);
      ok, sink' := CheckErr(StatusOf(r.reply), r.handling, sink);
    }

    /** Prepares a new statement and binds its values; `parsed` tells whether the query rewrite succeeded. */
    method PrepareStatement(stmt: Statement, text: string, nodes: nat, parsed: bool) returns (ok: bool, sink': bool)
      requires Valid() && !closed && !inLogon
      requires stmt.conn == this && !stmt.deleted && stmt.sql == None && stmt.Cleared() && stmt !in stmtSet
      modifies this, client, stmtSet, stmt
      ensures TextsKept(old(stmtSet))
      ensures Valid() && Kept()
      ensures ok ==>
        && stmt.Usable(session) && stmt.sql == Some(text) && |stmt.binds| == nodes && !sink' && !stmt.deleted && !closed
        && faults == old(faults)
      ensures if ok then parsed else sink' && (!parsed || faults > old(faults))
    {
      hide Sound;
      stmt.sql := Some(text);
      if !parsed {
        return false, true;
      }
      stmt.binds := seq(nodes, _ => 0);
      ok, sink' := BindAgain(stmt);
    }

    /** Defines the result columns of a statement, which registers it; `holds` is the outcome of the registry's
        assertion, which a statement meets if and only if it is not registered. */
    method Define(stmt: Statement, sink: bool) returns (ok: bool, sink': bool, holds: bool)
      requires Valid() && !closed && !inLogon && stmt.conn == this && !stmt.deleted && stmt.sql.Some?
      modifies this, client, stmtSet, stmt
      ensures TextsKept(old(stmtSet) + {stmt})
      ensures Valid() && callDepth == old(callDepth) && inLogon == old(inLogon) && executions == old(executions)
      ensures stmtSet <= old(stmtSet) + {stmt} && (callDepth > 0 ==> !closed) && calls == old(calls)
      ensures faults >= old(faults)
      ensures ok ==> stmt in stmtSet && stmt.defined && !stmt.deleted && !closed && stmt.sql.Some? && !old(stmt.defined)
      ensures ok <==> !old(stmt.defined) && Passes(old(client.Upcoming()).reply)
      ensures holds <==> old(stmt.defined) || stmt !in old(stmtSet)
      ensures if ok then sink' == sink else sink'
    {
      hide Sound;
      if stmt.defined {
        return false, true, true;
      }
      stmt.defined := true;
      holds := RegisterStatement(stmt);
      ok, sink' := ClientCall(sink);
    }

    /** Closes and deletes a statement. */
    method CloseStatement(stmt: Statement)
      requires Valid() && stmt.conn == this
      modifies this`stmtSet, stmt
      ensures Valid() && stmt.deleted && stmt.sql == None && stmt.Cleared() && stmtSet == old(stmtSet) - {stmt}
    {
      hide Sound;
      stmt.Reset();
      stmt.deleted := true;
    }

    /** Sets the "recv-timeout" option. No guarded call is in progress, so the server is attached. */
    method SetRecvTimeout(value: OptionValue, sink: bool) returns (ok: bool, sink': bool)
      requires Valid() && !closed && !inLogon && callDepth == 0
      modifies this, client, stmtSet
      ensures TextsKept(old(stmtSet))
      ensures Valid() && callDepth == 0 && !inLogon && stmtSet <= old(stmtSet) && executions == old(executions)
      ensures old(serverAttached) && calls == old(calls) && faults >= old(faults)
      ensures ok ==> TimeoutOf(value) == Some(recvTimeout) && serverAttached && handleTimeout == recvTimeout
      ensures !ok ==> recvTimeout == old(recvTimeout) && (TimeoutOf(value) == None || faults > old(faults))
      ensures TimeoutOf(value) == None ==> !ok && unchanged(this)
      ensures if ok then sink' == sink else sink'
    {
      NothingPending();
      hide Sound, History;
      var ms := ReadTimeout(value);
      if ms == None {
        return false, true;
      }
      ok, sink' := StoreTimeout(ms.value, sink);
    }

    /** Sets the receive timeout on an attached server, and stores it. */
    method StoreTimeout(ms: nat, sink: bool) returns (ok: bool, sink': bool)
      requires Valid() && !closed && !inLogon && callDepth == 0
      modifies this, client, stmtSet
      ensures TextsKept(old(stmtSet))
      ensures Valid() && callDepth == 0 && !inLogon && stmtSet <= old(stmtSet) && executions == old(executions)
      ensures old(serverAttached) && calls == old(calls) && faults >= old(faults)
      ensures if ok then recvTimeout == ms && serverAttached && handleTimeout == ms
              else recvTimeout == old(recvTimeout) && faults > old(faults)
      ensures if ok then sink' == sink else sink'
    {
      NothingPending();
      hide Past;
      ok, sink' := true, sink;
      if serverAttached {
        var r := Ask(true);
        ok, sink' := ApplyRecvTimeout(ms, StatusOf(r.reply), r.handling, sink);
      }
      if ok {
        recvTimeout := ms;
      }
    }

    /* ---- Driver calls without a guard ---- */

    /** The position of the first of the next `n` calls that fails, `n` if all pass. */
    function FirstFailure(n: nat): (k: nat)
      reads client
      ensures k <= n
    {
      FailsFirst(client.responses, client.asked, n)
    }

    /** The answer to the call loses the connection. */
    predicate Lost(r: Response)
      reads this
    {
      r.reply.Answer? && r.reply.status.Error? && Loses(r.reply.status.code, r.handling)
    }

    /** A driver call that holds no guard, such as one of a bulk load: `n` calls of the client, of which the first one
        that fails is the last. The connection is closed and deleted before the driver call returns if and only if that
        call loses it. */
    method UnguardedCall(n: nat) returns (ok: bool)
      requires Valid() && !closed && !inLogon && callDepth == 0
      modifies this, client, stmtSet
      ensures TextsKept(old(stmtSet))
      ensures Valid() && Kept()
      ensures ok <==> old(FirstFailure(n)) == n
      ensures !ok ==> faults > old(faults)
      ensures closed <==> !ok && old(Lost(client.responses(client.asked + FirstFailure(n))))
    {
      hide Sound, History;
      ok := true;
      var i := 0;
      ghost var first := FirstFailure(n);
      while ok && i < n
        invariant i <= n && Valid() && Kept() && TextsKept(old(stmtSet))
        invariant ok ==> unchanged(this) && client.asked == old(client.asked) + i && i <= first
        invariant ok ==> first == i + FirstFailure(n - i) && forall s :: s in stmtSet ==> unchanged(s)
        invariant !ok ==> first < n && faults > old(faults)
        invariant !ok ==> (closed <==> old(Lost(client.responses(client.asked + first))))
        decreases ok, n - i
      {
        var sink;
        ok, sink := ClientCall(false);
        if ok {
          i := i + 1;
        }
      }
    }
  }

  lemma Repeated(executions: seq<Execution>, first: Execution, second: Execution)
    requires Sound(executions) && forall i :: 0 <= i < |executions| ==> executions[i].call < first.call
    requires first.call == second.call && first.session < second.session && second.ready
    requires first.status.Error? && first.status.code != RECEIVE_TIMEOUT && !first.transaction
    requires second.text == first.text && second.binds == first.binds
    ensures MayRepeat(first, second) && Sound(executions + [first] + [second])
  {
    Appended(executions, [first, second], first.call);
    assert executions + [first] + [second] == executions + [first, second];
  }

  /* ---- The "recv-timeout" option ---- */

  datatype OptionValue = NoValue | IntValue(ms: int) | TextValue(text: string) | OtherValue

  const RECV_TIMEOUT_MAX: int := 4294967295
  predicate InRange(ms: int) {
    0 <= ms <= RECV_TIMEOUT_MAX
  }

  /** The timeout that an option value stands for: no value means none, and a text must be an integer numeral of at
      most 19 digits; None if the value is rejected. */
  function TimeoutOf(value: OptionValue): Option<nat> {
    match value
    case NoValue => Some(0)
    case IntValue(ms) => if InRange(ms) then Some(ms) else None
    case OtherValue => None
    case TextValue(text) =>
      if IsInteger(text) && |Magnitude(text)| <= 19 && InRange(IntegerValue(text)) then Some(IntegerValue(text))
      else None
  }

  /** Reads the option value; that a conversion to 64 bits may saturate makes no difference. */
  method ReadTimeout(value: OptionValue) returns (r: Option<nat>)
    ensures r == TimeoutOf(value)
  {
    var ms := 0;
    match value {
      case TextValue(text) =>
        var digits := Magnitude(text);
        var ok, i := digits != "", 0;
        while ok && i < |digits|
          invariant i <= |digits| && (ok ==> digits != "" && Digits(digits[..i]))
          invariant !ok ==> digits == "" || !Digits(digits)
        {
          if IsDigit(digits[i]) {
            i := i + 1;
          } else {
            ok := false;
          }
        }
        assert ok ==> digits[..i] == digits;
        if !ok || |digits| > 19 {
          return None;
        }
        IntegerRead(text);
        ms := StrToLL(text).n;
      case IntValue(n) =>
        ms := n;
      case NoValue =>
      case OtherValue =>
        return None;
    }
    r := if ms < 0 || ms > RECV_TIMEOUT_MAX then None else Some(ms);
  }

  /* ---- Timed-out sessions that are ended, and assertions that fail ---- */

  /** The session SQL of the logon times out, and everything before it succeeds. */
  const SQL_TIMES_OUT := GOOD_LOGON.(sql := TIMED_OUT)

  /** The receive timeout ends a call outside a guarded call, and then the session SQL of the logon that makes the
      connection again: that new session is ended by its own connection although a call on it timed out. */
  method SessionSqlTimesOut(conn: Connection)
    requires conn.Valid() && !conn.closed && !conn.inLogon && conn.callDepth == 0
    requires conn.client.Upcoming().reply == TIMED_OUT && conn.client.Upcoming().handling.logon == SQL_TIMES_OUT
    modifies conn, conn.client, conn.stmtSet
    ensures conn.closed && conn.session == old(conn.session) + 1 && conn.session in conn.ended
    ensures Timeout(conn.session, InLogon) in conn.timeouts && Timeout(conn.session, InCall) !in conn.timeouts
  {
    var ok, sink := conn.ClientCall(false);
  }

  /** A call fails for a reason of its own, with ORA-00942, and the receive timeout ends the ping of its error handler:
      the running session is ended by its own connection although a call on it timed out outside a logon. */
  method PingEndsSession(conn: Connection)
    requires conn.Valid() && !conn.closed && !conn.inLogon && conn.callDepth == 0 && conn.ocilibInit
    requires conn.client.Upcoming().reply == Answer(Error(942))
    requires conn.client.Upcoming().handling.ping == Error(RECEIVE_TIMEOUT)
    modifies conn, conn.client, conn.stmtSet
    ensures conn.closed && old(conn.live) && old(conn.session) in conn.ended
    ensures Timeout(old(conn.session), InPing) in conn.timeouts && Timeout(old(conn.session), InCall) !in conn.timeouts
  {
    var ok, sink := conn.ClientCall(false);
    assert conn.History();
    assert Timeout(old(conn.session), InCall) in conn.timeouts ==> conn.Settled(Timeout(old(conn.session), InCall));
  }

  /** The receive timeout ends a call of OCILIB, which is not handled, and the connection is lost afterwards: the
      session is ended by its own connection although a call on it timed out outside a logon. */
  method OcilibEndsSession(conn: Connection)
    requires conn.Valid() && !conn.closed && !conn.inLogon && conn.callDepth == 0
    requires conn.client.Upcoming().reply == TIMED_OUT
    requires conn.client.responses(conn.client.asked + 1).reply == Answer(Error(3113))
    modifies conn, conn.client, conn.stmtSet
    ensures conn.closed && old(conn.live) && old(conn.session) in conn.ended
    ensures Timeout(old(conn.session), Unhandled) in conn.timeouts
    ensures Timeout(old(conn.session), InCall) !in conn.timeouts
  {
    var ok, sink := conn.UnhandledCall(false, false);
    ok, sink := conn.ClientCall(sink);
    assert conn.History();
    assert Timeout(old(conn.session), InCall) in conn.timeouts ==> conn.Settled(Timeout(old(conn.session), InCall));
  }

  /** A call of a bulk load fails with ORA-03113: its connection is deleted while the driver call still runs. */
  method BulkCallLosesConnection(conn: Connection) returns (ok: bool)
    requires conn.Valid() && !conn.closed && !conn.inLogon && conn.callDepth == 0
    requires conn.client.Upcoming().reply == Answer(Error(3113))
    modifies conn, conn.client, conn.stmtSet
    ensures !ok && conn.closed
  {
    ok := conn.UnguardedCall(1);
  }

  /** A statement that is defined, cleared when a lost connection is made again, and defined again: the second time it
      fails the assertion of the registry. */
  method DefinedAgain(conn: Connection, stmt: Statement) returns (first: bool, second: bool)
    requires conn.Valid() && !conn.closed && !conn.inLogon && Passes(conn.client.Upcoming().reply)
    requires stmt.conn == conn && !stmt.deleted && stmt.sql.Some? && !stmt.defined && stmt !in conn.stmtSet
    modifies conn, conn.client, conn.stmtSet, stmt
    ensures first && !second
  {
    var ok, sink;
    ok, sink, first := conn.Define(stmt, false);
    conn.ClearStatements(null);
    ok, sink, second := conn.Define(stmt, false);
  }

  /* ---- Whole runs ---- */

  /** A step within a guarded call: executing an SQL text with a statement, defining its columns, closing it, a call of
      the client whose status comes to the error handler or does not, or a guarded call within the call. Statements have
      numbers. */
  datatype CallStep =
    | Run(stmt: nat, text: string, nodes: nat, parsed: bool)
    | DefineColumns(stmt: nat)
    | CloseOne(stmt: nat)
    | ClientWork
    | UnhandledWork(ignored: bool)
    | Nested(steps: seq<CallStep>)

  /** Setting the timeout; driver calls without a guard, which make calls of the client, or one that is not handled, or
      close a statement; and a guarded driver call. */
  datatype Operation =
    | SetTimeout(value: OptionValue)
    | Unguarded(calls: nat)
    | UnhandledUnguarded(ignored: bool)
    | CloseUnguarded(stmt: nat)
    | Guarded(steps: seq<CallStep>)

  /** The executions that the steps ask for, in order. */
  function Executions(steps: seq<CallStep>): seq<CallStep>
    decreases steps
  {
    if steps == [] then []
    else
      var last := steps[|steps| - 1];
      Executions(steps[..|steps| - 1])
      + match last
        case Run(_, _, _, _) => [last]
        case Nested(inner) => Executions(inner)
        case _ => []
  }

  function AskedBy(op: Operation): seq<CallStep> {
    if op.Guarded? then Executions(op.steps) else []
  }

  function Asked(operations: seq<Operation>): seq<CallStep> {
    if operations == [] then []
    else
      Asked(operations[..|operations| - 1]) + AskedBy(operations[|operations| - 1])
  }

  /** The text of a query after its rewrite and the number of its bind nodes. */
  datatype Query = Query(text: string, nodes: nat)

  /** What came of an execution: the number of the driver call, whether it succeeded, and the query that the statement
      was prepared with; or the statement could not be prepared; and whether something failed on the way. */
  datatype Result = Ran(call: nat, ok: bool, query: Query, fault: bool) | NotPrepared(fault: bool)

  function Count(results: seq<Result>): nat {
    if results == [] then 0
    else Count(results[..|results| - 1]) + if results[|results| - 1].Ran? then 1 else 0
  }

  function Faults(results: seq<Result>): nat {
    if results == [] then 0
    else Faults(results[..|results| - 1]) + if results[|results| - 1].fault then 1 else 0
  }

  /** The query with which each statement number was last prepared. */
  type Prepared = map<nat, Query>

  function Latest(p: Prepared, asked: seq<CallStep>, results: seq<Result>): Prepared
    requires |asked| == |results|
  {
    if results == [] then p
    else
      var n := |results| - 1;
      var before := Latest(p, asked[..n], results[..n]);
      if asked[n].Run? && results[n].Ran? then before[asked[n].stmt := results[n].query] else before
  }

  /** The driver call has an execution on the server with this outcome. */
  ghost predicate Executed(executions: seq<Execution>, call: nat, ok: bool) {
    exists i :: 0 <= i < |executions| && executions[i].call == call && Succeeds(executions[i].status) == ok
  }

  /** Whatever the driver call executes on the server is the query with its bind nodes. */
  ghost predicate Executes(executions: seq<Execution>, call: nat, query: Query) {
    forall i :: 0 <= i < |executions| && executions[i].call == call ==>
      executions[i].text == query.text && executions[i].binds == query.nodes
  }

  /** The query is the one of the step, or the one with which the number of its statement was last prepared; a step with
      a new number has its own. */
  predicate QueryFor(p: Prepared, asked: CallStep, query: Query)
    requires asked.Run?
  {
    (asked.parsed && query == Query(asked.text, asked.nodes)) || (asked.stmt in p && query == p[asked.stmt])
  }

  /** A result is accounted for: a call executes nothing but the query of its statement; one that succeeded has an
      execution that succeeded, one that failed has an execution that failed, or something else failed; and a statement
      is not prepared only if its query cannot be rewritten or something failed. */
  ghost predicate Accounted(executions: seq<Execution>, p: Prepared, asked: CallStep, r: Result) {
    && asked.Run?
    && match r
       case Ran(call, ok, query, fault) =>
         && QueryFor(p, asked, query) && Executes(executions, call, query)
         && (Executed(executions, call, ok) || (!ok && fault))
       case NotPrepared(fault) => fault || !asked.parsed
  }

  /** One result for each execution that was asked for; driver calls are numbered in their order, from `first` on. */
  ghost predicate Results(executions: seq<Execution>, p: Prepared, asked: seq<CallStep>, results: seq<Result>,
                          first: nat) {
    |results| == |asked| && forall k :: 0 <= k < |results| ==> ResultAt(executions, p, asked, results, first, k)
  }

  ghost predicate ResultAt(executions: seq<Execution>, p: Prepared, asked: seq<CallStep>, results: seq<Result>,
                           first: nat, k: int)
    requires 0 <= k < |results| == |asked|
  {
    && Accounted(executions, Latest(p, asked[..k], results[..k]), asked[k], results[k])
    && (results[k].Ran? ==> results[k].call == first + Count(results[..k]))
  }

  /** The executions that were added belong to later calls. */
  predicate Later(executions: seq<Execution>, more: seq<Execution>, call: nat) {
    executions <= more && forall i :: |executions| <= i < |more| ==> more[i].call >= call
  }

  lemma AccountedStays(executions: seq<Execution>, more: seq<Execution>, p: Prepared, asked: CallStep, r: Result,
                       next: nat)
    requires Later(executions, more, next) && Accounted(executions, p, asked, r) && (r.Ran? ==> r.call < next)
    ensures Accounted(more, p, asked, r)
  {
    if r.Ran? {
      if i :| 0 <= i < |executions| && executions[i].call == r.call && Succeeds(executions[i].status) == r.ok {
        assert more[i] == executions[i];
      }
      forall i | 0 <= i < |more| && more[i].call == r.call
        ensures more[i].text == r.query.text && more[i].binds == r.query.nodes
      {
        assert more[i] == executions[i];
      }
    }
  }

  lemma {:induction false} CountBelow(results: seq<Result>, k: nat)
    requires k < |results|
    ensures Count(results[..k]) + (if results[k].Ran? then 1 else 0) <= Count(results)
  {
    var n := |results| - 1;
    if k < n {
      CountBelow(results[..n], k);
      assert results[..n][..k] == results[..k];
    }
  }

  lemma ResultsStay(executions: seq<Execution>, more: seq<Execution>, p: Prepared, asked: seq<CallStep>,
                    results: seq<Result>, first: nat)
    requires Later(executions, more, first + Count(results)) && Results(executions, p, asked, results, first)
    ensures Results(more, p, asked, results, first)
  {
    hide Count, Accounted, Later, Latest;
    forall k | 0 <= k < |results|
      ensures ResultAt(more, p, asked, results, first, k)
    {
      assert ResultAt(executions, p, asked, results, first, k);
      CountBelow(results, k);
      AccountedStays(executions, more, Latest(p, asked[..k], results[..k]), asked[k], results[k],
                     first + Count(results));
    }
  }

  lemma {:induction false} CountsAdd(a: seq<Result>, b: seq<Result>)
    ensures Count(a + b) == Count(a) + Count(b) && Faults(a + b) == Faults(a) + Faults(b)
  {
    if b == [] {
      assert a + b == a;
    } else {
      var n := |b| - 1;
      CountsAdd(a, b[..n]);
      assert (a + b)[..|a + b| - 1] == a + b[..n];
    }
  }

  lemma {:induction false} LatestAdds(p: Prepared, asked: seq<CallStep>, results: seq<Result>, asked': seq<CallStep>,
                                      results': seq<Result>)
    requires |asked| == |results| && |asked'| == |results'|
    ensures Latest(p, asked + asked', results + results') == Latest(Latest(p, asked, results), asked', results')
  {
    if results' == [] {
      assert asked + asked' == asked && results + results' == results;
    } else {
      var n := |results'| - 1;
      LatestAdds(p, asked, results, asked'[..n], results'[..n]);
      var m := |results + results'| - 1;
      assert (asked + asked')[..m] == asked + asked'[..n] && (results + results')[..m] == results + results'[..n];
    }
  }

  lemma JoinedLeft(executions: seq<Execution>, p: Prepared, asked: seq<CallStep>, results: seq<Result>, first: nat,
                   asked': seq<CallStep>, results': seq<Result>, k: nat)
    requires |asked| == |results| && |asked'| == |results'| && k < |results|
    requires ResultAt(executions, p, asked, results, first, k)
    ensures ResultAt(executions, p, asked + asked', results + results', first, k)
  {
    hide Accounted, Latest, Count;
    assert (results + results')[..k] == results[..k] && (asked + asked')[..k] == asked[..k];
  }

  lemma JoinedRight(executions: seq<Execution>, p: Prepared, asked: seq<CallStep>, results: seq<Result>, first: nat,
                    asked': seq<CallStep>, results': seq<Result>, j: nat)
    requires |asked| == |results| && |asked'| == |results'| && j < |results'|
    requires ResultAt(executions, Latest(p, asked, results), asked', results', first + Count(results), j)
    ensures ResultAt(executions, p, asked + asked', results + results', first, |results| + j)
  {
    hide Accounted, Latest, Count, Faults;
    var k := |results| + j;
    assert (results + results')[..k] == results + results'[..j] && (asked + asked')[..k] == asked + asked'[..j];
    CountsAdd(results, results'[..j]);
    LatestAdds(p, asked, results, asked'[..j], results'[..j]);
  }

  lemma ResultsJoin(executions: seq<Execution>, p: Prepared, asked: seq<CallStep>, results: seq<Result>, first: nat,
                    asked': seq<CallStep>, results': seq<Result>)
    requires Results(executions, p, asked, results, first)
    requires Results(executions, Latest(p, asked, results), asked', results', first + Count(results))
    ensures Results(executions, p, asked + asked', results + results', first)
  {
    hide ResultAt, Latest, Count;
    forall k | 0 <= k < |results + results'|
      ensures ResultAt(executions, p, asked + asked', results + results', first, k)
    {
      if k < |results| {
        JoinedLeft(executions, p, asked, results, first, asked', results', k);
      } else {
        JoinedRight(executions, p, asked, results, first, asked', results', k - |results|);
      }
    }
  }

  /** The results of a run so far, and what its next part adds to them. */
  lemma Extended(start: seq<Execution>, before: seq<Execution>, executions: seq<Execution>, p: Prepared,
                 asked: seq<CallStep>, results: seq<Result>, first: nat, asked': seq<CallStep>, results': seq<Result>)
    requires Later(start, before, first) && Results(before, p, asked, results, first)
    requires Later(before, executions, first + Count(results))
    requires |asked| == |results|
    requires Results(executions, Latest(p, asked, results), asked', results', first + Count(results))
    ensures Later(start, executions, first) && Results(executions, p, asked + asked', results + results', first)
    ensures |asked + asked'| == |results + results'|
    ensures Latest(p, asked + asked', results + results') == Latest(Latest(p, asked, results), asked', results')
    ensures Count(results + results') == Count(results) + Count(results')
    ensures Faults(results + results') == Faults(results) + Faults(results')
  {
    Lengths(executions, Latest(p, asked, results), asked', results', first + Count(results));
    LaterYet(start, before, executions, first, first + Count(results));
    hide Results, Later, Latest, Count, Faults;
    ResultsStay(before, executions, p, asked, results, first);
    ResultsJoin(executions, p, asked, results, first, asked', results');
    CountsAdd(results, results');
    LatestAdds(p, asked, results, asked', results');
  }

  lemma LaterYet(a: seq<Execution>, b: seq<Execution>, c: seq<Execution>, call: nat, call': nat)
    requires Later(a, b, call) && Later(b, c, call') && call <= call'
    ensures Later(a, c, call)
  {
  }

  lemma Lengths(executions: seq<Execution>, p: Prepared, asked: seq<CallStep>, results: seq<Result>, first: nat)
    requires Results(executions, p, asked, results, first)
    ensures |results| == |asked|
  {
  }

  /** The statements that have a number. */
  type Handles = map<nat, Statement>

  ghost predicate Of(conn: Connection, handles: Handles) {
    forall i :: i in handles ==> handles[i].conn == conn
  }

  /** Each statement that was not freed has the text and the bind nodes of the query that it was prepared with. */
  ghost predicate Known(handles: Handles, p: Prepared)
    reads handles.Values
  {
    forall i :: i in handles ==> i in p && Has(handles[i], p[i])
  }

  ghost predicate Has(stmt: Statement, query: Query)
    reads stmt
  {
    stmt.sql == None || (stmt.sql == Some(query.text) && |stmt.binds| == query.nodes)
  }

  /** The statement with this number, if it is prepared; otherwise a new one is made and prepared. */
  method Obtain(conn: Connection, handles: Handles, ghost p: Prepared, step: CallStep)
    returns (handles': Handles, stmt: Statement?, ghost query: Query)
    requires conn.Valid() && !conn.closed && !conn.inLogon && conn.callDepth > 0 && Of(conn, handles) && step.Run?
    requires Known(handles, p)
    modifies conn, conn.client, conn.stmtSet, handles.Values
    ensures conn.Valid() && !conn.closed && conn.callDepth == old(conn.callDepth) && !conn.inLogon
    ensures Of(conn, handles') && (forall i :: i in handles' ==> handles'[i] in handles.Values || fresh(handles'[i]))
    ensures conn.stmtSet <= old(conn.stmtSet)
    ensures conn.executions == old(conn.executions) && conn.calls == old(conn.calls) && conn.faults >= old(conn.faults)
    ensures stmt == null ==> handles' == handles && (conn.faults > old(conn.faults) || !step.parsed)
    ensures stmt != null ==>
      && step.stmt in handles' && handles'[step.stmt] == stmt && stmt.conn == conn && !stmt.deleted
      && stmt.sql == Some(query.text) && |stmt.binds| == query.nodes && QueryFor(p, step, query)
    ensures Known(handles', if stmt != null then p[step.stmt := query] else p)
  {
    hide Sound, Connection.History;
    handles', query := handles, Query(step.text, step.nodes);
    if step.stmt in handles && !handles[step.stmt].deleted && handles[step.stmt].sql.Some? {
      stmt := handles[step.stmt];
      query := p[step.stmt];
      return;
    }
    stmt := new Statement(conn);
    var ok, sink := conn.PrepareStatement(stmt, step.text, step.nodes, step.parsed);
    if ok {
      handles' := handles[step.stmt := stmt];
    } else {
      stmt := null;
    }
  }

  /** Executes an SQL text with a statement; a statement that is not prepared is made and prepared first. */
  method RunStep(conn: Connection, handles: Handles, ghost p: Prepared, step: CallStep)
    returns (handles': Handles, ghost r: Result)
    requires conn.Valid() && !conn.closed && !conn.inLogon && conn.callDepth > 0 && Of(conn, handles) && step.Run?
    requires Known(handles, p)
    modifies conn, conn.client, conn.stmtSet, handles.Values
    ensures conn.Valid() && !conn.closed && conn.callDepth == old(conn.callDepth) && !conn.inLogon
    ensures Of(conn, handles') && (forall i :: i in handles' ==> handles'[i] in handles.Values || fresh(handles'[i]))
    ensures forall s :: s in conn.stmtSet ==> s in old(conn.stmtSet) || s in handles.Values || fresh(s)
    ensures Later(old(conn.executions), conn.executions, old(conn.calls))
    ensures Results(conn.executions, p, [step], [r], old(conn.calls)) && conn.calls == old(conn.calls) + Count([r])
    ensures conn.faults >= old(conn.faults) + Faults([r])
    ensures Known(handles', Latest(p, [step], [r]))
  {
    hide Sound, Connection.History, Results, Accounted, Later, CallOf, QueryFor, Latest, Count, Faults;
    ghost var faults, calls, before := conn.faults, conn.calls, conn.executions;
    conn.CallsBelow();
    var stmt;
    ghost var query;
    handles', stmt, query := Obtain(conn, handles, p, step);
    if stmt != null {
      ghost var obtained := conn.faults;
      ghost var added;
      var ok, sink;
      ok, sink, added := conn.Execute(stmt, false);
      r := Ran(calls, ok, query, conn.faults > obtained);
      RanOnce(before, added, p, step, r);
    } else {
      r := NotPrepared(conn.faults > faults);
      NoneRan(before, p, step, r, calls);
    }
    OneResult(conn.executions, p, step, r, calls);
  }

  lemma RanOnce(before: seq<Execution>, added: seq<Execution>, p: Prepared, step: CallStep, r: Result)
    requires r.Ran? && forall i :: 0 <= i < |before| ==> before[i].call < r.call
    requires CallOf(added, r.call, r.query.text, r.query.nodes, r.ok, r.fault)
    requires step.Run? && QueryFor(p, step, r.query)
    ensures Accounted(before + added, p, step, r) && Later(before, before + added, r.call)
  {
    var all := before + added;
    forall i | 0 <= i < |all| && all[i].call == r.call
      ensures all[i].text == r.query.text && all[i].binds == r.query.nodes
    {
      assert i >= |before| && all[i] == added[i - |before|];
    }
    if added != [] {
      assert all[|all| - 1] == added[|added| - 1];
    }
  }

  lemma NoneRan(before: seq<Execution>, p: Prepared, step: CallStep, r: Result, call: nat)
    requires r.NotPrepared? && step.Run? && (r.fault || !step.parsed)
    ensures Accounted(before, p, step, r) && Later(before, before, call)
  {
  }

  lemma OneResult(executions: seq<Execution>, p: Prepared, step: CallStep, r: Result, first: nat)
    requires Accounted(executions, p, step, r) && (r.Ran? ==> r.call == first)
    ensures Results(executions, p, [step], [r], first)
    ensures Count([r]) == (if r.Ran? then 1 else 0) && Faults([r]) == if r.fault then 1 else 0
    ensures Latest(p, [step], [r]) == if step.Run? && r.Ran? then p[step.stmt := r.query] else p
  {
    assert [r][..0] == [] && [step][..0] == [];
  }

  /** A step that asks for no execution and no guarded call. */
  method OtherStep(conn: Connection, handles: Handles, step: CallStep)
    requires conn.Valid() && !conn.closed && !conn.inLogon && conn.callDepth > 0 && Of(conn, handles)
    modifies conn, conn.client, conn.stmtSet, handles.Values
    ensures conn.Valid() && !conn.closed && conn.callDepth == old(conn.callDepth) && !conn.inLogon
    ensures conn.stmtSet <= old(conn.stmtSet) + handles.Values && conn.executions == old(conn.executions)
    ensures conn.calls == old(conn.calls) && conn.faults >= old(conn.faults)
    ensures forall i :: i in handles ==> handles[i].TextKept()
  {
    hide Sound, Connection.History;
    match step {
      case DefineColumns(i) =>
        if i in handles && !handles[i].deleted && handles[i].sql.Some? {
          var ok, sink, holds := conn.Define(handles[i], false);
        }
      case CloseOne(i) =>
        if i in handles {
          conn.CloseStatement(handles[i]);
        }
      case ClientWork =>
        var ok, sink := conn.ClientCall(false);
      case UnhandledWork(ignored) =>
        var ok, sink := conn.UnhandledCall(ignored, false);
      case _ =>
    }
  }

  lemma NothingAsked(executions: seq<Execution>, p: Prepared, first: nat)
    ensures Results(executions, p, [], [], first) && Count([]) == 0 && Faults([]) == 0 && Latest(p, [], []) == p
    ensures Executions([]) == [] && Asked([]) == [] && Later(executions, executions, first)
  {
  }

  lemma OneMoreOperation(operations: seq<Operation>, i: nat)
    requires i < |operations|
    ensures Asked(operations[..i + 1]) == Asked(operations[..i]) + AskedBy(operations[i])
  {
    assert operations[..i + 1][..i] == operations[..i];
  }

  lemma OneStep(step: CallStep)
    ensures Executions([step]) ==
      match step
      case Run(_, _, _, _) => [step]
      case Nested(inner) => Executions(inner)
      case _ => []
  {
    assert [step][..0] == [];
  }

  lemma OneMoreStep(steps: seq<CallStep>, i: nat)
    requires i < |steps|
    ensures Executions(steps[..i + 1]) == Executions(steps[..i]) + Executions([steps[i]])
  {
    OneStep(steps[i]);
    assert steps[..i + 1][..i] == steps[..i];
  }

  /** One step of a guarded call. */
  method StepOf(conn: Connection, handles: Handles, ghost p: Prepared, steps: seq<CallStep>, n: nat)
    returns (handles': Handles, ghost results: seq<Result>)
    requires conn.Valid() && !conn.closed && !conn.inLogon && conn.callDepth > 0 && Of(conn, handles)
      && Known(handles, p)
    requires n < |steps|
    modifies conn, conn.client, conn.stmtSet, handles.Values
    ensures conn.Valid() && !conn.closed && conn.callDepth == old(conn.callDepth) && !conn.inLogon
    ensures Of(conn, handles') && (forall i :: i in handles' ==> handles'[i] in handles.Values || fresh(handles'[i]))
    ensures forall s :: s in conn.stmtSet ==> s in old(conn.stmtSet) || s in handles.Values || fresh(s)
    ensures Later(old(conn.executions), conn.executions, old(conn.calls))
    ensures Results(conn.executions, p, Executions([steps[n]]), results, old(conn.calls))
    ensures Known(handles', Latest(p, Executions([steps[n]]), results))
    ensures conn.calls == old(conn.calls) + Count(results) && conn.faults >= old(conn.faults) + Faults(results)
    decreases steps, 0
  {
    hide Sound, Connection.History, Results, Count, Faults, Executions, Latest, Later;
    OneStep(steps[n]);
    match steps[n] {
      case Run(_, _, _, _) =>
        ghost var r;
        handles', r := RunStep(conn, handles, p, steps[n]);
        results := [r];
      case Nested(inner) =>
        handles', results := GuardedCall(conn, handles, p, inner);
      case _ =>
        OtherStep(conn, handles, steps[n]);
        handles', results := handles, [];
        NothingAsked(conn.executions, p, conn.calls);
    }
  }

  /** A guarded driver call. The connection is not closed before the outermost call ends, and each execution that the
      steps ask for has its result, whatever fails. */
  method GuardedCall(conn: Connection, handles: Handles, ghost p: Prepared, steps: seq<CallStep>)
    returns (handles': Handles, ghost results: seq<Result>)
    requires conn.Valid() && !conn.closed && !conn.inLogon && Of(conn, handles) && Known(handles, p)
    modifies conn, conn.client, conn.stmtSet, handles.Values
    ensures conn.Valid() && conn.callDepth == old(conn.callDepth) && !conn.inLogon
    ensures conn.closed ==> conn.callDepth == 0
    ensures Of(conn, handles') && (forall i :: i in handles' ==> handles'[i] in handles.Values || fresh(handles'[i]))
    ensures forall s :: s in conn.stmtSet ==> s in old(conn.stmtSet) || s in handles.Values || fresh(s)
    ensures Later(old(conn.executions), conn.executions, old(conn.calls))
    ensures Results(conn.executions, p, Executions(steps), results, old(conn.calls))
    ensures Known(handles', Latest(p, Executions(steps), results))
    ensures conn.calls == old(conn.calls) + Count(results) && conn.faults >= old(conn.faults) + Faults(results)
    decreases steps, 1
  {
    hide Sound, Connection.History, Results, Count, Faults, Executions, Latest, Later;
    conn.EnterCall();
    handles', results := handles, [];
    NothingAsked(conn.executions, p, conn.calls);
    assert steps[..0] == [];
    ghost var q := p;
    for n := 0 to |steps|
      invariant conn.Valid() && !conn.closed && !conn.inLogon && conn.callDepth == old(conn.callDepth) + 1
      invariant Of(conn, handles') && forall i :: i in handles' ==> handles'[i] in handles.Values || fresh(handles'[i])
      invariant forall s :: s in conn.stmtSet ==> s in old(conn.stmtSet) || s in handles.Values || fresh(s)
      invariant Later(old(conn.executions), conn.executions, old(conn.calls))
      invariant Results(conn.executions, p, Executions(steps[..n]), results, old(conn.calls))
      invariant |results| == |Executions(steps[..n])| && q == Latest(p, Executions(steps[..n]), results)
      invariant Known(handles', q)
      invariant conn.calls == old(conn.calls) + Count(results) && conn.faults >= old(conn.faults) + Faults(results)
    {
      ghost var executions, asked := conn.executions, Executions(steps[..n]);
      OneMoreStep(steps, n);
      ghost var more;
      handles', more := StepOf(conn, handles', q, steps, n);
      ghost var asked' := Executions([steps[n]]);
      Extended(old(conn.executions), executions, conn.executions, p, asked, results, old(conn.calls), asked', more);
      results, q := results + more, Latest(q, asked', more);
    }
    assert steps[..|steps|] == steps;
    conn.LeaveCall();
  }

  lemma {:induction false} NoFaults(results: seq<Result>)
    requires Faults(results) == 0
    ensures forall k :: 0 <= k < |results| ==> !results[k].fault
  {
    if results != [] {
      NoFaults(results[..|results| - 1]);
    }
  }

  /** If no call fails, every execution that is asked for succeeds, unless its query cannot be rewritten. */
  ghost predicate AllRan(asked: seq<CallStep>, results: seq<Result>) {
    && |results| == |asked|
    && forall k :: 0 <= k < |results| ==> if results[k].Ran? then results[k].ok else asked[k].Run? && !asked[k].parsed
  }

  lemma AllExecuted(executions: seq<Execution>, p: Prepared, asked: seq<CallStep>, results: seq<Result>, first: nat)
    requires Results(executions, p, asked, results, first) && Faults(results) == 0
    requires forall i :: 0 <= i < |executions| ==> Succeeds(executions[i].status)
    ensures AllRan(asked, results)
  {
    hide Faults, Count, Latest;
    NoFaults(results);
    forall k | 0 <= k < |results|
      ensures if results[k].Ran? then results[k].ok else asked[k].Run? && !asked[k].parsed
    {
      assert ResultAt(executions, p, asked, results, first, k);
    }
  }

  /** A run of operations on a connection, with any answers of the client and any behaviour of the datasource; it ends
      early only if the connection is closed. Each execution that is asked for has its result: its executions on the
      server are of the query that its statement was prepared with, at most two and as MayRepeat() allows, and it has
      none only if something failed. Whatever fails is an answer of the client that fails, so without one all operations
      are performed and all executions succeed. */
  method AnyRun(responses: nat -> Response, handlesMade: bool, replies: LogonReplies, initialized: bool,
                operations: seq<Operation>)
    returns (conn: Connection, isOpen: bool, ghost results: seq<Result>, ghost done: nat)
    ensures isOpen <==> handlesMade && LogsOn(0, replies) && initialized
    ensures conn.TimeoutsKept() && (!isOpen ==> !conn.live && results == [] && done == 0)
    ensures isOpen ==> conn.Valid() && conn.callDepth == 0 && !conn.inLogon
    ensures isOpen ==> Sound(conn.executions) && conn.closings == if conn.closed then [0] else []
    ensures isOpen ==> done <= |operations| && (done < |operations| ==> conn.closed)
    ensures isOpen ==>
      && Results(conn.executions, map[], Asked(operations[..done]), results, 0)
      && conn.calls == Count(results) && conn.faults >= Faults(results)
      && forall i :: 0 <= i < |conn.executions| ==> conn.executions[i].call < Count(results)
    ensures conn.faults <= Failures(responses, conn.client.asked)
    ensures isOpen && AllPass(responses) ==> done == |operations| && AllRan(Asked(operations), results)
  {
    hide Sound, Results, Count, Faults, Executions, Asked, Failures, AllRan;
    var client := new Client(responses);
    conn, isOpen := Connection.Open(client, handlesMade, replies, initialized);
    results, done := [], 0;
    if !isOpen {
      return;
    }
    results, done := PerformAll(conn, operations);
    conn.TimeoutsAreKept();
    if AllPass(responses) {
      NoFailures(responses, client.asked);
      assert operations[..done] == operations;
      AllExecuted(conn.executions, map[], Asked(operations), results, 0);
    }
  }

  /** Performs operations until the connection is closed. */
  method PerformAll(conn: Connection, operations: seq<Operation>) returns (ghost results: seq<Result>, ghost done: nat)
    requires conn.Valid() && !conn.closed && !conn.inLogon && conn.callDepth == 0
    requires conn.stmtSet == {} && conn.executions == [] && conn.calls == 0 && conn.faults == 0
    modifies conn, conn.client
    ensures conn.Valid() && conn.callDepth == 0 && !conn.inLogon
    ensures done <= |operations| && (done < |operations| ==> conn.closed)
    ensures Results(conn.executions, map[], Asked(operations[..done]), results, 0)
    ensures conn.calls == Count(results) && conn.faults >= Faults(results)
  {
    hide Sound, Connection.History, Results, Count, Faults, Executions, Asked, Latest, Later;
    results, done := [], 0;
    NothingAsked(conn.executions, map[], 0);
    assert operations[..0] == [];
    var handles: Handles := map[];
    ghost var p: Prepared := map[];
    var n := 0;
    while n < |operations| && !conn.closed
      invariant n <= |operations| && done == n && conn.Valid() && conn.callDepth == 0 && !conn.inLogon
      invariant Of(conn, handles) && forall i :: i in handles ==> fresh(handles[i])
      invariant forall s :: s in conn.stmtSet ==> fresh(s)
      invariant Results(conn.executions, map[], Asked(operations[..n]), results, 0)
      invariant conn.calls == Count(results) && conn.faults >= Faults(results)
      invariant Later([], conn.executions, 0) && |results| == |Asked(operations[..n])|
      invariant p == Latest(map[], Asked(operations[..n]), results) && Known(handles, p)
      decreases |operations| - n
    {
      ghost var executions, asked := conn.executions, Asked(operations[..n]);
      OneMoreOperation(operations, n);
      conn.transaction := *;
      ghost var more;
      handles, more := Perform(conn, handles, p, operations[n]);
      Extended([], executions, conn.executions, map[], asked, results, 0, AskedBy(operations[n]), more);
      results, p := results + more, Latest(p, AskedBy(operations[n]), more);
      n := n + 1;
      done := n;
    }
  }

  method Perform(conn: Connection, handles: Handles, ghost p: Prepared, op: Operation)
    returns (handles': Handles, ghost results: seq<Result>)
    requires conn.Valid() && !conn.closed && !conn.inLogon && conn.callDepth == 0 && Of(conn, handles)
    requires Known(handles, p)
    modifies conn, conn.client, conn.stmtSet, handles.Values
    ensures conn.Valid() && conn.callDepth == 0 && !conn.inLogon
    ensures Of(conn, handles') && (forall i :: i in handles' ==> handles'[i] in handles.Values || fresh(handles'[i]))
    ensures forall s :: s in conn.stmtSet ==> s in old(conn.stmtSet) || s in handles.Values || fresh(s)
    ensures Later(old(conn.executions), conn.executions, old(conn.calls))
    ensures Results(conn.executions, p, AskedBy(op), results, old(conn.calls))
    ensures Known(handles', Latest(p, AskedBy(op), results))
    ensures conn.calls == old(conn.calls) + Count(results) && conn.faults >= old(conn.faults) + Faults(results)
  {
    hide Sound, Connection.History, Results, Count, Faults, Executions, Latest, Later;
    handles', results := handles, [];
    NothingAsked(conn.executions, p, conn.calls);
    match op {
      case SetTimeout(value) =>
        var ok, sink := conn.SetRecvTimeout(value, false);
      case Unguarded(calls) =>
        var ok := conn.UnguardedCall(calls);
      case UnhandledUnguarded(ignored) =>
        var ok, sink := conn.UnhandledCall(ignored, false);
      case CloseUnguarded(i) =>
        if i in handles {
          conn.CloseStatement(handles[i]);
        }
      case Guarded(steps) =>
        handles', results := GuardedCall(conn, handles, p, steps);
    }
  }
}
