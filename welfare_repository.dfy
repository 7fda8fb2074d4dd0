/** The `welfare_services` table: which of a page's ids it already holds, and
    the batch insert of new records with their embeddings. The table's key is
    the record's own `service_id`. */
module WelfareRepository {
  import opened Wrappers
  import opened Dto
  import opened Connection

  /** One row: the record's columns and its embedding. */
  datatype WelfareRow = WelfareRow(service: WelfareService, embedding: Embedding)

  /** The primary key on `id`: no two rows share a service id. */
  predicate UniqueIds(rows: seq<WelfareRow>) {
    forall i, j :: 0 <= i < j < |rows| ==> rows[i].service.serviceId != rows[j].service.serviceId
  }

  /** The ids present in a table. */
  function Ids(rows: seq<WelfareRow>): set<string> {
    set r | r in rows :: r.service.serviceId
  }

  /** The answer to `SELECT id FROM welfare_services WHERE id = ANY(ids)`. */
  function ExistingIds(ids: seq<string>, rows: seq<WelfareRow>): set<string> {
    set i | i in ids && i in Ids(rows)
  }

  /** An id is reported existing exactly when it was asked about and some row carries it. */
  lemma ExistingIdsExact(ids: seq<string>, rows: seq<WelfareRow>, id: string)
    ensures id in ExistingIds(ids, rows) <==>
      id in ids && exists k :: 0 <= k < |rows| && rows[k].service.serviceId == id
  {
    if id in ids && exists k :: 0 <= k < |rows| && rows[k].service.serviceId == id {
      var k :| 0 <= k < |rows| && rows[k].service.serviceId == id;
      assert rows[k] in rows;
    }
  }

  /** One row per `(dto, embedding)` pair, in order (the `params_list`). */
  function RowsOf(data: seq<(WelfareService, Embedding)>): (r: seq<WelfareRow>)
    ensures |r| == |data|
    ensures forall i :: 0 <= i < |data| ==> r[i].service == data[i].0 && r[i].embedding == data[i].1
  {
    seq(|data|, i requires 0 <= i < |data| => WelfareRow(data[i].0, data[i].1))
  }

  /** The database accepts the batch insert: the key still holds afterwards. */
  predicate Accepts(table: seq<WelfareRow>, data: seq<(WelfareService, Embedding)>) {
    UniqueIds(table + RowsOf(data))
  }

  /** On a keyed table, a batch is accepted exactly when none of its ids is
      already stored and no id occurs twice in it. */
  lemma AcceptsIff(table: seq<WelfareRow>, data: seq<(WelfareService, Embedding)>)
    requires UniqueIds(table)
    ensures Accepts(table, data) <==>
      (forall i :: 0 <= i < |data| ==> data[i].0.serviceId !in Ids(table)) &&
      (forall i, j :: 0 <= i < j < |data| ==> data[i].0.serviceId != data[j].0.serviceId)
  {
    var all := table + RowsOf(data);
    var n := |table|;
    if Accepts(table, data) {
      forall i | 0 <= i < |data|
        ensures data[i].0.serviceId !in Ids(table)
      {
        forall k | 0 <= k < n
          ensures table[k].service.serviceId != data[i].0.serviceId
        {
          assert all[k] == table[k] && all[n + i].service == data[i].0;
        }
      }
      forall i, j | 0 <= i < j < |data|
        ensures data[i].0.serviceId != data[j].0.serviceId
      {
        assert all[n + i].service.serviceId != all[n + j].service.serviceId;
      }
    } else {
      var i, j :| 0 <= i < j < |all| && all[i].service.serviceId == all[j].service.serviceId;
      if i < n && n <= j {
        assert table[i] in table;
        assert data[j - n].0.serviceId in Ids(table);
      } else if n <= i {
        assert data[i - n].0.serviceId == data[j - n].0.serviceId;
      }
    }
  }

  class WelfareRepository {
    /** The session inherited from `BaseRepository`. */
    const conn: Connection<WelfareRow>

    constructor (conn: Connection<WelfareRow>)
      ensures this.conn == conn
    {
      this.conn := conn;
    }

    /** The primary key holds both in what the session sees and in what is committed. */
    predicate Valid()
      reads conn
    {
      UniqueIds(conn.table) && UniqueIds(conn.committed)
    }

    /** `get_existing_ids`: no query for an empty list; the stored ids among
      those asked; a driver error is rolled back and reported as "none exist";
      any other failure escapes. */
    method GetExistingIds(ids: seq<string>) returns (r: Outcome<set<string>>)
      requires Valid()
      modifies conn
      ensures Valid()
      ensures conn.committed == old(conn.committed) && conn.closed == old(conn.closed)
      ensures ids == [] ==> r == Returned({}) && conn.table == old(conn.table) && conn.stmts == old(conn.stmts)
      ensures ids != [] ==> conn.stmts == old(conn.stmts) + 1
      ensures ids != [] && conn.FaultAt(old(conn.stmts)) == None ==>
        r == Returned(ExistingIds(ids, old(conn.table))) && conn.table == old(conn.table)
      ensures ids != [] && conn.FaultAt(old(conn.stmts)) == Some(DbError) ==>
        r == Returned({}) && conn.table == old(conn.committed)
      ensures ids != [] && conn.FaultAt(old(conn.stmts)) == Some(Unexpected) ==>
        r == Raised && conn.table == old(conn.table)
    {
      if ids == [] {
        return Returned({});
      }
      var f := conn.Execute();
      match f
      case None =>
        r := Returned(ExistingIds(ids, conn.table));
      case Some(DbError) =>
        conn.Rollback();
        r := Returned({});
      case Some(Unexpected) =>
        r := Raised;
    }

    /** `insert_services_batch`: nothing to do for an empty batch; otherwise
      one multi-row INSERT that either adds a row per pair and reports their
      number, or fails (scheduled error, or a key the table already holds or
      the batch repeats) and is rolled back, reporting 0. No exception escapes. */
    method InsertServicesBatch(data: seq<(WelfareService, Embedding)>) returns (count: nat)
      requires Valid()
      modifies conn
      ensures Valid()
      ensures conn.committed == old(conn.committed) && conn.closed == old(conn.closed)
      ensures data == [] ==> count == 0 && conn.table == old(conn.table) && conn.stmts == old(conn.stmts)
      ensures data != [] ==> conn.stmts == old(conn.stmts) + 1
      ensures data != [] && conn.FaultAt(old(conn.stmts)) == None && Accepts(old(conn.table), data) ==>
        count == |data| && conn.table == old(conn.table) + RowsOf(data)
      ensures data != [] && !(conn.FaultAt(old(conn.stmts)) == None && Accepts(old(conn.table), data)) ==>
        count == 0 && conn.table == old(conn.committed)
    {
      if data == [] {
        return 0;
      }
      var f := conn.Execute();
      if f == None && Accepts(conn.table, data) {
        conn.table := conn.table + RowsOf(data);
        count := |data|;
      } else {
        conn.Rollback();
        count := 0;
      }
    }
  }
}
