/** The database session every repository shares (`BaseRepository`): one
    table seen through an open transaction, the durable contents it commits
    to, and a schedule of which statements fail and how. */
module Connection {
  import opened Wrappers

  /** How a statement fails: a driver error (`psycopg2.Error`) or any other
      exception. The repositories catch the first kind and not always the second. */
  datatype Fault = DbError | Unexpected

  /** A call that either returns a value or lets an exception escape. */
  datatype Outcome<T> = Returned(value: T) | Raised

  class Connection<Row> {
    /** The rows this session sees, its own uncommitted changes included. */
    var table: seq<Row>
    /** The rows other sessions see: the state as of the last commit. */
    var committed: seq<Row>
    /** How many statements (queries and commits) have run. */
    var stmts: nat
    /** Statement number to the fault it raises; all others succeed. */
    const faults: map<nat, Fault>
    var closed: bool

    /** The fault scheduled for statement `n`, if any. */
    function FaultAt(n: nat): (f: Option<Fault>)
      ensures f.Some? <==> n in faults
      ensures f.Some? ==> f.value == faults[n]
    {
      if n in faults then Some(faults[n]) else None
    }

    /** A session opened on `rows` with the given failure schedule. */
    constructor (rows: seq<Row>, faults: map<nat, Fault>)
      ensures table == rows && committed == rows && stmts == 0
      ensures this.faults == faults && !closed
    {
      table := rows;
      committed := rows;
      stmts := 0;
      this.faults := faults;
      closed := false;
    }

    /** Sends one statement: it fails with the fault scheduled for it, if any,
      and changes nothing else; the caller applies the statement's effect. */
    method Execute() returns (f: Option<Fault>)
      modifies this
      ensures f == old(FaultAt(stmts))
      ensures stmts == old(stmts) + 1
      ensures table == old(table) && committed == old(committed) && closed == old(closed)
    {
      f := FaultAt(stmts);
      stmts := stmts + 1;
    }

    /** `BaseRepository.commit`: success makes the session's rows durable; a
      driver error is logged and rolled back instead; any other exception
      escapes (`raised`) with nothing committed. */
    method Commit() returns (raised: bool)
      modifies this
      ensures stmts == old(stmts) + 1 && closed == old(closed)
      ensures old(FaultAt(stmts)) == None ==> !raised && committed == old(table) && table == old(table)
      ensures old(FaultAt(stmts)) == Some(DbError) ==> !raised && committed == old(committed) && table == old(committed)
      ensures old(FaultAt(stmts)) == Some(Unexpected) ==> raised && committed == old(committed) && table == old(table)
    {
      var f := Execute();
      raised := false;
      match f
      case None =>
        committed := table;
      case Some(DbError) =>
        table := committed;
      case Some(Unexpected) =>
        raised := true;
    }

    /** `BaseRepository.rollback`: the session's uncommitted changes are discarded. */
    method Rollback()
      modifies this
      ensures table == old(committed) && committed == old(committed)
      ensures stmts == old(stmts) && closed == old(closed)
    {
      table := committed;
    }

    /** `BaseRepository.close`: the session ends; uncommitted changes are lost
      to everyone else. */
    method Close()
      modifies this
      ensures closed
      ensures table == old(table) && committed == old(committed) && stmts == old(stmts)
    {
      closed := true;
    }
  }
}
