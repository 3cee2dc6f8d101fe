/**
 The statement sequencing of the rotulus database tool: creating and
 dropping the schema and its tables on one connection, fail-fast, and the
 commit / rollback / close discipline of the `create`, `drop` and `reset`
 actions.
 */
module Database {
  import opened Ddl
  import opened Schema
  import opened Connections

  // ---------------------------------------------------------------------
  // Specification: what happens on a connection
  // ---------------------------------------------------------------------

  /**
   The outcome of a statement run or of one connection attempt of an
   action: its result and the events it added to the connection.
   */
  datatype Run = Run(ok: bool, events: seq<Event>)

  /**
   Sends `stmts` in order, the first as statement number `start` of the
   connection, and stops at the first one that fails.
   */
  function RunStatements(stmts: seq<string>, answers: nat -> bool, start: nat): Run
    decreases |stmts|
  {
    if stmts == [] then Run(true, [])
    else if !answers(start) then Run(false, [Executed(stmts[0], false)])
    else
      var rest := RunStatements(stmts[1..], answers, start + 1);
      Run(rest.ok, [Executed(stmts[0], true)] + rest.events)
  }

  /** The events of statements that all succeeded. */
  function Successes(stmts: seq<string>): seq<Event> {
    seq(|stmts|, k requires 0 <= k < |stmts| => Executed(stmts[k], true))
  }

  /**
   The fail-fast policy: statements go out in order, each with the outcome
   the oracle gives it; the run succeeds exactly when every statement does;
   a failed run ends with the first failing statement and sends nothing
   after it.
   */
  lemma {:induction false} RunStatementsStopsAtFirstFailure(stmts: seq<string>, answers: nat -> bool, start: nat)
    ensures var r := RunStatements(stmts, answers, start);
      && |r.events| <= |stmts|
      && (forall k | 0 <= k < |r.events| :: r.events[k] == Executed(stmts[k], answers(start + k)))
      && (r.ok <==> forall n | start <= n < start + |stmts| :: answers(n))
      && (r.ok ==> |r.events| == |stmts|)
      && (!r.ok ==> |r.events| > 0 && !answers(start + |r.events| - 1))
      && (forall n | start <= n < start + |r.events| - 1 :: answers(n))
    decreases |stmts|
  {
    if stmts != [] && answers(start) {
      var rest := RunStatements(stmts[1..], answers, start + 1);
      RunStatementsStopsAtFirstFailure(stmts[1..], answers, start + 1);
      var r := RunStatements(stmts, answers, start);
      assert r.events == [Executed(stmts[0], true)] + rest.events;
      forall k | 1 <= k < |r.events|
        ensures r.events[k] == Executed(stmts[k], answers(start + k))
      {
        assert r.events[k] == rest.events[k - 1];
        assert stmts[1..][k - 1] == stmts[k];
      }
    }
  }

  /** A run whose first `t` statements succeed begins with their events and goes on from statement `t`. */
  lemma {:induction false} RunAfterSuccesses(stmts: seq<string>, answers: nat -> bool, start: nat, t: nat)
    requires t <= |stmts|
    requires forall n | start <= n < start + t :: answers(n)
    ensures var rest := RunStatements(stmts[t..], answers, start + t);
      RunStatements(stmts, answers, start) == Run(rest.ok, Successes(stmts[..t]) + rest.events)
    decreases t
  {
    if t == 0 {
      assert stmts[0..] == stmts;
      assert Successes(stmts[..0]) == [];
    } else {
      assert answers(start);
      RunAfterSuccesses(stmts[1..], answers, start + 1, t - 1);
      assert stmts[1..][t - 1..] == stmts[t..];
      assert [Executed(stmts[0], true)] + Successes(stmts[1..][..t - 1]) == Successes(stmts[..t]);
    }
  }

  /** A run whose statements before number `t` succeed and whose statement `t` fails. */
  lemma RunFailsAt(prior: seq<Event>, stmts: seq<string>, answers: nat -> bool, start: nat, t: nat)
    requires t < |stmts|
    requires forall n | start <= n < start + t :: answers(n)
    requires !answers(start + t)
    ensures var r := RunStatements(stmts, answers, start);
      && r == Run(false, Successes(stmts[..t]) + [Executed(stmts[t], false)])
      && prior + Successes(stmts[..t]) + [Executed(stmts[t], false)] == prior + r.events
  {
    RunAfterSuccesses(stmts, answers, start, t);
    assert stmts[t..][0] == stmts[t];
  }

  /** A run whose statements all succeed. */
  lemma RunSucceeds(stmts: seq<string>, answers: nat -> bool, start: nat)
    requires forall n | start <= n < start + |stmts| :: answers(n)
    ensures RunStatements(stmts, answers, start) == Run(true, Successes(stmts))
  {
    RunAfterSuccesses(stmts, answers, start, |stmts|);
    assert stmts[..|stmts|] == stmts;
    assert stmts[|stmts|..] == [];
  }

  /** The events of the first `t + 1` successes extend those of the first `t`. */
  lemma SuccessesSnoc(prior: seq<Event>, stmts: seq<string>, t: nat)
    requires t < |stmts|
    ensures prior + Successes(stmts[..t + 1]) == prior + Successes(stmts[..t]) + [Executed(stmts[t], true)]
  {
  }

  /** Appending the next part to a joined prefix, after the separator when one is due. */
  lemma AppendPart(header: string, parts: seq<string>, i: nat)
    requires i < |parts|
    ensures header + Join(parts[..i]) + (if 0 < i then ", " else "") + parts[i]
      == header + Join(parts[..i + 1])
  {
    var p := parts[..i + 1];
    assert p[..i] == parts[..i];
    if 0 < i {
      assert Join(p) == Join(parts[..i]) + ", " + parts[i];
    } else {
      assert Join(p) == parts[0];
    }
  }

  /**
   The `create` action: create the schema, then the tables; commit when
   both succeed; roll back when the schema was created but a table was
   not; close the connection in every case where one was opened.
   */
  function Setup(server: Server): Run {
    if !server.reachable then Run(false, [])
    else
      var a := server.answers;
      var schema := Executed(CreateSchemaStatement, a(0));
      if !a(0) then Run(false, [schema, Close])
      else
        var tables := RunStatements(CreateStatements(Tables), a, 1);
        if tables.ok then Run(true, [schema] + tables.events + [Commit, Close])
        else Run(false, [schema] + tables.events + [Rollback, Close])
  }

  /**
   The `drop` action: drop the tables, then the schema; commit when both
   succeed; roll back when the tables were dropped but the schema was not;
   close the connection in every case where one was opened.
   */
  function Remove(server: Server): Run {
    if !server.reachable then Run(false, [])
    else
      var a := server.answers;
      var tables := RunStatements(DropStatements(Tables), a, 0);
      if !tables.ok then Run(false, tables.events + [Close])
      else
        var n := |tables.events|;
        var schema := Executed(DropSchemaStatement, a(n));
        if a(n) then Run(true, tables.events + [schema, Commit, Close])
        else Run(false, tables.events + [schema, Rollback, Close])
  }

  // ---------------------------------------------------------------------
  // Properties of the actions
  // ---------------------------------------------------------------------

  /** A run of statements alone never commits, rolls back or closes. */
  lemma RunOnlyExecutes(stmts: seq<string>, answers: nat -> bool, start: nat)
    ensures var r := RunStatements(stmts, answers, start);
      Commit !in r.events && Rollback !in r.events && Close !in r.events
  {
    RunStatementsStopsAtFirstFailure(stmts, answers, start);
  }

  /**
   Events that neither commit, roll back nor close, followed by at most one
   commit or rollback and then a close, close exactly once and at the end.
   `finish` is `Close` when nothing comes before the close.
   */
  lemma EndsWithOneClose(body: seq<Event>, finish: Event)
    requires Commit !in body && Rollback !in body && Close !in body
    ensures var ev := if finish == Close then body + [Close] else body + [finish, Close];
      && multiset(ev)[Close] == 1 && ev[|ev| - 1] == Close
      && !(Commit in ev && Rollback in ev)
  {
    var ev := if finish == Close then body + [Close] else body + [finish, Close];
    assert multiset(body)[Close] == 0;
    assert multiset(ev) == multiset(body) + multiset(ev[|body|..]);
  }

  /**
   `create` succeeds, and commits, exactly when a connection was opened,
   the schema statement succeeded and all six table statements after it
   succeeded; otherwise it never commits.
   */
  lemma SetupCommitsIffAllSucceed(server: Server)
    ensures Setup(server).ok <==>
      server.reachable && forall n | 0 <= n <= |Tables| :: server.answers(n)
    ensures Setup(server).ok <==> Commit in Setup(server).events
  {
    if server.reachable {
      RunStatementsStopsAtFirstFailure(CreateStatements(Tables), server.answers, 1);
      RunOnlyExecutes(CreateStatements(Tables), server.answers, 1);
    }
  }

  /**
   `create` rolls back exactly when the schema statement succeeded and a
   table statement failed; a failed schema statement only closes.
   */
  lemma SetupRollsBackIffTablesFail(server: Server)
    ensures Rollback in Setup(server).events <==>
      server.reachable && server.answers(0) && !RunStatements(CreateStatements(Tables), server.answers, 1).ok
    ensures server.reachable && !server.answers(0) ==>
      Setup(server).events == [Executed(CreateSchemaStatement, false), Close]
  {
    if server.reachable {
      RunOnlyExecutes(CreateStatements(Tables), server.answers, 1);
    }
  }

  /**
   A `create` that opened a connection closes it exactly once, as its last
   event, and never both commits and rolls back; one that could not connect
   sends nothing and fails.
   */
  lemma SetupClosesOnce(server: Server)
    ensures server.reachable ==> var ev := Setup(server).events;
      && multiset(ev)[Close] == 1 && ev[|ev| - 1] == Close
      && !(Commit in ev && Rollback in ev)
    ensures !server.reachable ==> Setup(server) == Run(false, [])
  {
    if server.reachable {
      var schema := Executed(CreateSchemaStatement, server.answers(0));
      if server.answers(0) {
        var tables := RunStatements(CreateStatements(Tables), server.answers, 1);
        RunOnlyExecutes(CreateStatements(Tables), server.answers, 1);
        EndsWithOneClose([schema] + tables.events, if tables.ok then Commit else Rollback);
      } else {
        EndsWithOneClose([schema], Close);
      }
    }
  }

  /**
   `drop` succeeds, and commits, exactly when a connection was opened,
   all six table drops succeeded and the schema drop after them succeeded.
   */
  lemma RemoveCommitsIffAllSucceed(server: Server)
    ensures Remove(server).ok <==>
      server.reachable && forall n | 0 <= n <= |Tables| :: server.answers(n)
    ensures Remove(server).ok <==> Commit in Remove(server).events
  {
    if server.reachable {
      RunStatementsStopsAtFirstFailure(DropStatements(Tables), server.answers, 0);
      RunOnlyExecutes(DropStatements(Tables), server.answers, 0);
    }
  }

  /**
   `drop` rolls back exactly when every table drop succeeded and the schema
   drop failed; a failed table drop only closes.
   */
  lemma RemoveRollsBackIffSchemaFails(server: Server)
    ensures Rollback in Remove(server).events <==>
      server.reachable
      && RunStatements(DropStatements(Tables), server.answers, 0).ok
      && !server.answers(|Tables|)
    ensures server.reachable && !RunStatements(DropStatements(Tables), server.answers, 0).ok ==>
      Rollback !in Remove(server).events && Commit !in Remove(server).events
  {
    if server.reachable {
      RunStatementsStopsAtFirstFailure(DropStatements(Tables), server.answers, 0);
      RunOnlyExecutes(DropStatements(Tables), server.answers, 0);
    }
  }

  /**
   A `drop` that opened a connection closes it exactly once, as its last
   event, and never both commits and rolls back; one that could not connect
   sends nothing and fails.
   */
  lemma RemoveClosesOnce(server: Server)
    ensures server.reachable ==> var ev := Remove(server).events;
      && multiset(ev)[Close] == 1 && ev[|ev| - 1] == Close
      && !(Commit in ev && Rollback in ev)
    ensures !server.reachable ==> Remove(server) == Run(false, [])
  {
    if server.reachable {
      var tables := RunStatements(DropStatements(Tables), server.answers, 0);
      RunOnlyExecutes(DropStatements(Tables), server.answers, 0);
      if tables.ok {
        var n := |tables.events|;
        var schema := Executed(DropSchemaStatement, server.answers(n));
        EndsWithOneClose(tables.events + [schema], if server.answers(n) then Commit else Rollback);
      } else {
        EndsWithOneClose(tables.events, Close);
      }
    }
  }

  /** The command-line actions. */
  datatype Action = Create | Drop | Reset

  /**
   The connection attempts an action makes, in order. `reset` runs `drop` on the first
   connection attempt and then `create` on the second, whatever the first
   returned.
   */
  function Dispatch(action: Action, first: Server, second: Server): seq<Run> {
    match action
    case Create => [Setup(first)]
    case Drop => [Remove(first)]
    case Reset => [Remove(first), Setup(second)]
  }

  /**
   The specification of `reset`: its `create` step does not depend on the
   server its `drop` step met. `ParseCli`'s contract ties the connections
   the action opens to these sessions.
   */
  lemma ResetIgnoresRemoval(first: Server, first': Server, second: Server)
    ensures Dispatch(Reset, first, second)[1] == Dispatch(Reset, first', second)[1] == Setup(second)
  {
  }

  // ---------------------------------------------------------------------
  // The operations
  // ---------------------------------------------------------------------

  /** Sends the statement that creates the schema. */
  method CreateSchema(conn: Connection) returns (ok: bool)
    modifies conn
    ensures ok == conn.answers(old(conn.executed)) && conn.executed == old(conn.executed) + 1
    ensures conn.events == old(conn.events) + [Executed(CreateSchemaStatement, ok)]
  {
    ok := conn.Execute(CreateSchemaStatement);
  }

  /** Sends the statement that drops the schema. */
  method DropSchema(conn: Connection) returns (ok: bool)
    modifies conn
    ensures ok == conn.answers(old(conn.executed)) && conn.executed == old(conn.executed) + 1
    ensures conn.events == old(conn.events) + [Executed(DropSchemaStatement, ok)]
  {
    ok := conn.Execute(DropSchemaStatement);
  }

  /**
   Builds the create statement of one table: the header, then each column's
   name and properties, a ", " after every column but the last, then ");".
   */
  method CreateQuery(table: Table) returns (query: string)
    ensures query == CreateStatement(table)
  {
    ghost var clauses := ColumnClauses(table.columns);
    ghost var header := CreateTablePrefix + table.name + "( ";
    query := CreateTablePrefix + table.name + "( ";
    var columns := |table.columns|;
    var i := 0;
    while i < columns
      invariant 0 <= i <= columns
      invariant query == header + Join(clauses[..i]) + (if 0 < i < columns then ", " else "")
    {
      var column := table.columns[i];
      AppendPart(header, clauses, i);
      query := query + (column.name + " " + Properties(column));
      i := i + 1;
      if i != columns {
        query := query + ", ";
      }
    }
    query := query + ");";
    assert clauses[..columns] == clauses;
  }

  /**
   Sends each table's create statement in list order, stopping at the
   first one that fails.
   */
  method CreateTables(conn: Connection) returns (ok: bool)
    modifies conn
    ensures var r := RunStatements(CreateStatements(Tables), conn.answers, old(conn.executed));
      && ok == r.ok
      && conn.events == old(conn.events) + r.events
      && conn.executed == old(conn.executed) + |r.events|
  {
    ghost var stmts := CreateStatements(Tables);
    ghost var start := conn.executed;
    var t := 0;
    while t < |Tables|
      invariant 0 <= t <= |Tables|
      invariant conn.executed == start + t
      invariant conn.events == old(conn.events) + Successes(stmts[..t])
      invariant forall n | start <= n < start + t :: conn.answers(n)
    {
      var query := CreateQuery(Tables[t]);
      assert query == stmts[t];
      var executed := conn.Execute(query);
      if !executed {
        RunFailsAt(old(conn.events), stmts, conn.answers, start, t);
        return false;
      }
      SuccessesSnoc(old(conn.events), stmts, t);
      t := t + 1;
    }
    assert stmts[..t] == stmts;
    RunSucceeds(stmts, conn.answers, start);
    return true;
  }

  /** Sends each table's drop statement in list order, stopping at the first one that fails. */
  method DropTables(conn: Connection) returns (ok: bool)
    modifies conn
    ensures var r := RunStatements(DropStatements(Tables), conn.answers, old(conn.executed));
      && ok == r.ok
      && conn.events == old(conn.events) + r.events
      && conn.executed == old(conn.executed) + |r.events|
  {
    ghost var stmts := DropStatements(Tables);
    ghost var start := conn.executed;
    var t := 0;
    while t < |Tables|
      invariant 0 <= t <= |Tables|
      invariant conn.executed == start + t
      invariant conn.events == old(conn.events) + Successes(stmts[..t])
      invariant forall n | start <= n < start + t :: conn.answers(n)
    {
      var query := "drop table rotulus." + Tables[t].name + " cascade;";
      assert query == stmts[t];
      var executed := conn.Execute(query);
      if !executed {
        RunFailsAt(old(conn.events), stmts, conn.answers, start, t);
        return false;
      }
      SuccessesSnoc(old(conn.events), stmts, t);
      t := t + 1;
    }
    assert stmts[..t] == stmts;
    RunSucceeds(stmts, conn.answers, start);
    return true;
  }

  /** The `create` action on a connection of its own. */
  method SetupDatabase(server: Server) returns (ok: bool, conn: Connection?)
    ensures (conn != null) == server.reachable
    ensures conn != null ==> fresh(conn) && conn.events == Setup(server).events
    ensures ok == Setup(server).ok
  {
    conn := Connect(server);
    if conn != null {
      var schemaOk := CreateSchema(conn);
      if schemaOk {
        var tablesOk := CreateTables(conn);
        if tablesOk {
          conn.Commit();
          conn.Close();
          return true, conn;
        } else {
          conn.Rollback();
        }
      }
      conn.Close();
    }
    return false, conn;
  }

  /** The `drop` action on a connection of its own. */
  method RemoveTables(server: Server) returns (ok: bool, conn: Connection?)
    ensures (conn != null) == server.reachable
    ensures conn != null ==> fresh(conn) && conn.events == Remove(server).events
    ensures ok == Remove(server).ok
  {
    conn := Connect(server);
    if conn != null {
      var tablesOk := DropTables(conn);
      if tablesOk {
        var schemaOk := DropSchema(conn);
        if schemaOk {
          conn.Commit();
          conn.Close();
          return true, conn;
        } else {
          conn.Rollback();
        }
      }
      conn.Close();
    }
    return false, conn;
  }

  /**
   Runs one command-line action. Each `create` or `drop` step connects
   anew: `first` is what the first connection attempt meets and `second`
   what the second meets. The results of the steps are discarded; what
   remains are the connections, returned here with what was done on each.
   */
  method ParseCli(action: Action, first: Server, second: Server) returns (conns: seq<Connection?>)
    ensures |conns| == |Dispatch(action, first, second)|
    ensures (conns[0] != null) == first.reachable
    ensures action == Reset ==> (conns[1] != null) == second.reachable
    ensures forall k | 0 <= k < |conns| && conns[k] != null :: fresh(conns[k])
    ensures action == Reset && conns[0] != null ==> conns[0] != conns[1]
    ensures forall k | 0 <= k < |conns| ::
      var s := Dispatch(action, first, second)[k];
      if conns[k] == null then s.events == [] else conns[k].events == s.events
  {
    match action
    case Create =>
      var _, c := SetupDatabase(first);
      conns := [c];
    case Drop =>
      var _, c := RemoveTables(first);
      conns := [c];
    case Reset =>
      var _, c1 := RemoveTables(first);
      var _, c2 := SetupDatabase(second);
      conns := [c1, c2];
  }
}
