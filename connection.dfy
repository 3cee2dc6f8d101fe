/**
 The database connection as the rotulus tool sees it. The real connection
 is a PostgreSQL driver object; here it is a log of what the tool did with
 it (statements sent and whether each succeeded, commit, rollback, close),
 and the success of each statement comes from an oracle fixed when the
 connection is opened, so proofs cover every pattern of success and failure.
 */
module Connections {

  /** One thing the tool did on a connection. */
  datatype Event =
    | Executed(statement: string, succeeded: bool)
    | Commit
    | Rollback
    | Close

  /**
   What the tool meets when it tries to connect: whether the configuration
   can be read and the server accepts the connection, and, for a connection
   it opens, whether the k-th statement sent on it (counting from 0)
   succeeds.
   */
  datatype Server = Server(reachable: bool, answers: nat -> bool)

  class Connection {
    /** The oracle: whether the k-th statement sent on this connection succeeds. */
    const answers: nat -> bool
    /** How many statements have been sent so far. */
    var executed: nat
    /** Everything done on this connection, oldest first. */
    var events: seq<Event>

    constructor (answers: nat -> bool)
      ensures this.answers == answers && executed == 0 && events == []
    {
      this.answers := answers;
      executed := 0;
      events := [];
    }

    /**
     Sends one statement on a fresh cursor. A statement the server rejects
     is reported as false instead of raising.
     */
    method Execute(query: string) returns (ok: bool)
      modifies this
      ensures ok == answers(old(executed))
      ensures executed == old(executed) + 1
      ensures events == old(events) + [Executed(query, ok)]
    {
      ok := answers(executed);
      executed := executed + 1;
      events := events + [Executed(query, ok)];
    }

    method Commit()
      modifies this
      ensures executed == old(executed) && events == old(events) + [Event.Commit]
    {
      events := events + [Event.Commit];
    }

    method Rollback()
      modifies this
      ensures executed == old(executed) && events == old(events) + [Event.Rollback]
    {
      events := events + [Event.Rollback];
    }

    /** Closes a cursor and then the connection itself. */
    method Close()
      modifies this
      ensures executed == old(executed) && events == old(events) + [Event.Close]
    {
      events := events + [Event.Close];
    }
  }

  /**
   Opens a connection: none when the configuration cannot be read or the
   server refuses, otherwise a new connection on which nothing was done yet.
   */
  method Connect(server: Server) returns (conn: Connection?)
    ensures (conn != null) == server.reachable
    ensures conn != null ==> fresh(conn) && conn.answers == server.answers
    ensures conn != null ==> conn.executed == 0 && conn.events == []
  {
    if server.reachable {
      conn := new Connection(server.answers);
    } else {
      conn := null;
    }
  }
}
