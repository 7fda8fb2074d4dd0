/** The legacy `WelfareRepository`: id lookup, the one-row insert built
    straight from a raw API item, and the transaction calls. Unlike the
    current repositories, a failed insert is neither reported nor rolled
    back; PostgreSQL then refuses every later statement of the transaction
    and turns its COMMIT into a ROLLBACK. */
module LegacyRepository {
  import opened Wrappers
  import opened Text
  import opened Fetch
  import opened Dto
  import opened Connection
  import W = WelfareRepository
  import LocalFetcher

  /** The row `insert_service` writes for an item: the local adapter's column
      mapping (id, name, summary, region, department, the three comma lists,
      cycle, form, method, reformatted date, link) and the embedding. */
  function RowOf(item: Item, embedding: Embedding): (r: W.WelfareRow)
    ensures Get(item, "servId").Some? ==> r.service.serviceId == Get(item, "servId").value
    ensures r.service == LocalFetcher.MapToDto(item) && r.embedding == embedding
  {
    W.WelfareRow(LocalFetcher.MapToDto(item), embedding)
  }

  /** The rows of a list of `(item, embedding)` pairs, in order. */
  function RowsOf(pairs: seq<(Item, Embedding)>): (r: seq<W.WelfareRow>)
    ensures |r| == |pairs|
    ensures forall i :: 0 <= i < |pairs| ==> r[i] == RowOf(pairs[i].0, pairs[i].1)
  {
    seq(|pairs|, i requires 0 <= i < |pairs| => RowOf(pairs[i].0, pairs[i].1))
  }

  /** The table's keys accept the item: it has an id (the column is the
      primary key, so `NULL` is refused) that no stored row carries. */
  predicate Insertable(item: Item, table: seq<W.WelfareRow>) {
    Get(item, "servId").Some? && Get(item, "servId").value !in W.Ids(table)
  }

  class LegacyRepository {
    const conn: Connection<W.WelfareRow>
    /** A statement of the open transaction has failed on the server; until
        the transaction ends, every statement fails. */
    var aborted: bool

    constructor (conn: Connection<W.WelfareRow>)
      ensures this.conn == conn && !aborted
    {
      this.conn := conn;
      aborted := false;
    }

    /** The primary key holds both in what the session sees and in what is committed. */
    predicate Valid()
      reads conn
    {
      W.UniqueIds(conn.table) && W.UniqueIds(conn.committed)
    }

    /** `get_existing_ids`: no query for an empty list; the stored ids among
      those asked; a driver error (a refused statement of a failed
      transaction included) is rolled back and reported as "none exist";
      any other failure escapes. */
    method GetExistingIds(ids: seq<string>) returns (r: Outcome<set<string>>)
      requires Valid()
      modifies this, conn
      ensures Valid()
      ensures conn.committed == old(conn.committed) && conn.closed == old(conn.closed)
      ensures ids == [] ==> r == Returned({}) && conn.table == old(conn.table) && conn.stmts == old(conn.stmts) && aborted == old(aborted)
      ensures ids != [] ==> conn.stmts == old(conn.stmts) + 1
      ensures ids != [] && conn.FaultAt(old(conn.stmts)) == None && !old(aborted) ==>
        r == Returned(W.ExistingIds(ids, old(conn.table))) && conn.table == old(conn.table) && !aborted
      ensures ids != [] && (conn.FaultAt(old(conn.stmts)) == Some(DbError) || (old(aborted) && conn.FaultAt(old(conn.stmts)) == None)) ==>
        r == Returned({}) && conn.table == old(conn.committed) && !aborted
      ensures ids != [] && conn.FaultAt(old(conn.stmts)) == Some(Unexpected) ==>
        r == Raised && conn.table == old(conn.table) && aborted == old(aborted)
    {
      if ids == [] {
        return Returned({});
      }
      var f := conn.Execute();
      if f == Some(Unexpected) {
        r := Raised;
      } else if f == Some(DbError) || aborted {
        conn.Rollback();
        aborted := false;
        r := Returned({});
      } else {
        r := Returned(W.ExistingIds(ids, conn.table));
      }
    }

    /** `insert_service`: one INSERT of the item's row. It never raises. It
      adds the row when the statement goes through and the key accepts it;
      a refused statement leaves the table as it was and the transaction
      failed; an error raised before the statement is sent leaves both. */
    method InsertService(item: Item, embedding: Embedding)
      requires Valid()
      modifies this, conn
      ensures Valid()
      ensures conn.stmts == old(conn.stmts) + 1
      ensures conn.committed == old(conn.committed) && conn.closed == old(conn.closed)
      ensures conn.FaultAt(old(conn.stmts)) == None && !old(aborted) && Insertable(item, old(conn.table)) ==>
        conn.table == old(conn.table) + [RowOf(item, embedding)] && !aborted
      ensures !(conn.FaultAt(old(conn.stmts)) == None && !old(aborted) && Insertable(item, old(conn.table))) ==>
        conn.table == old(conn.table) && aborted == (old(aborted) || conn.FaultAt(old(conn.stmts)) != Some(Unexpected))
    {
      var f := conn.Execute();
      if f == None && !aborted && Insertable(item, conn.table) {
        ghost var t := conn.table;
        var row := RowOf(item, embedding);
        conn.table := conn.table + [row];
        forall i, j | 0 <= i < j < |conn.table|
          ensures conn.table[i].service.serviceId != conn.table[j].service.serviceId
        {
          if j == |t| {
            assert conn.table[i] == t[i] && t[i] in t;
          }
        }
      } else if f != Some(Unexpected) {
        aborted := true;
      }
    }

    /** `commit`: a transaction with no failed statement becomes durable; a
      failed one is ended by the server with a ROLLBACK; a driver error on
      the commit itself is rolled back; any other exception escapes with
      nothing changed. */
    method Commit() returns (raised: bool)
      requires Valid()
      modifies this, conn
      ensures Valid()
      ensures conn.stmts == old(conn.stmts) + 1 && conn.closed == old(conn.closed)
      ensures conn.FaultAt(old(conn.stmts)) == None && !old(aborted) ==>
        !raised && conn.committed == old(conn.table) && conn.table == old(conn.table) && !aborted
      ensures conn.FaultAt(old(conn.stmts)) == None && old(aborted) ==>
        !raised && conn.committed == old(conn.committed) && conn.table == old(conn.committed) && !aborted
      ensures conn.FaultAt(old(conn.stmts)) == Some(DbError) ==>
        !raised && conn.committed == old(conn.committed) && conn.table == old(conn.committed) && !aborted
      ensures conn.FaultAt(old(conn.stmts)) == Some(Unexpected) ==>
        raised && conn.committed == old(conn.committed) && conn.table == old(conn.table) && aborted == old(aborted)
    {
      var f := conn.Execute();
      raised := false;
      match f
      case None =>
        if aborted {
          conn.Rollback();
          aborted := false;
        } else {
          conn.committed := conn.table;
        }
      case Some(DbError) =>
        conn.Rollback();
        aborted := false;
      case Some(Unexpected) =>
        raised := true;
    }

    /** `rollback`: the uncommitted rows are discarded and the transaction ends. */
    method Rollback()
      requires Valid()
      modifies this, conn
      ensures Valid() && !aborted
      ensures conn.table == old(conn.committed) && conn.committed == old(conn.committed)
      ensures conn.stmts == old(conn.stmts) && conn.closed == old(conn.closed)
    {
      conn.Rollback();
      aborted := false;
    }

    /** `close`: the cursor and the connection end. */
    method Close()
      modifies conn
      ensures conn.closed
      ensures conn.table == old(conn.table) && conn.committed == old(conn.committed) && conn.stmts == old(conn.stmts)
    {
      conn.Close();
    }
  }

  /** The id of a stored item is its `servId`, so after a successful insert
      the table holds that id. */
  lemma InsertedIdStored(item: Item, embedding: Embedding, table: seq<W.WelfareRow>)
    requires Insertable(item, table)
    ensures W.Ids(table + [RowOf(item, embedding)]) == W.Ids(table) + {Get(item, "servId").value}
  {
    var t := table + [RowOf(item, embedding)];
    assert t[|table|] == RowOf(item, embedding);
    forall id | id in W.Ids(t)
      ensures id in W.Ids(table) + {Get(item, "servId").value}
    {
      var r :| r in t && r.service.serviceId == id;
      if r in table {
      }
    }
    forall id | id in W.Ids(table)
      ensures id in W.Ids(t)
    {
      var r :| r in table && r.service.serviceId == id;
      assert r in t;
    }
  }
}
