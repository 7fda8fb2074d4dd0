/** The `employment_jobs` table. Rows have no business key: new postings are
    told apart from stored ones by a composite text key (company, title, term,
    salary), and postings whose term has ended are deleted. */
module EmploymentRepository {
  import opened Wrappers
  import opened Text
  import opened Dates
  import opened Dto
  import opened Connection

  // ---------------------------------------------------------------------------
  // The term of a posting
  // ---------------------------------------------------------------------------

  /** A posting's application period, both ends inclusive. */
  datatype Term = Term(start: Date, end: Date)

  /** `_parse_term_date`: a "YYYY-MM-DD~YYYY-MM-DD" text becomes its two
      dates; a missing or empty text, one without '~', one with more than one
      '~', or one whose halves are not dates gives no term. */
  function ParseTermDate(s: Option<string>): (r: Option<Term>)
    ensures r.Some? ==> ValidDate(r.value.start) && ValidDate(r.value.end)
    ensures r.Some? ==> Truthy(s) && '~' in s.value
  {
    if !Truthy(s) || '~' !in s.value then None
    else
      var parts := Split(s.value, '~');
      if |parts| != 2 then None
      else
        match (ParseIsoDate(parts[0]), ParseIsoDate(parts[1]))
        case (Some(a), Some(b)) => Some(Term(a, b))
        case _ => None
  }

  /** A term printed as two ISO dates around '~' parses back to itself. */
  lemma {:induction false} ParseTermDateRoundTrip(t: Term)
    requires ValidDate(t.start) && ValidDate(t.end)
    ensures ParseTermDate(Some(FormatIso(t.start) + "~" + FormatIso(t.end))) == Some(t)
  {
    var x, y := FormatIso(t.start), FormatIso(t.end);
    FormatIsoChars(t.start);
    FormatIsoChars(t.end);
    assert '~' !in x && '~' !in y;
    var s := x + "~" + y;
    assert s == x + ['~'] + y && s[|x|] == '~';
    SplitAfterHead(x, '~', y);
    SplitWhole(y, '~');
    assert Split(s, '~') == [x, y];
    ParseFormatIso(t.start);
    ParseFormatIso(t.end);
  }

  /** Conversely, a text that parses is exactly the printed form of its term. */
  lemma {:induction false} ParseTermDateExact(s: Option<string>)
    requires ParseTermDate(s).Some?
    ensures s == Some(FormatIso(ParseTermDate(s).value.start) + "~" + FormatIso(ParseTermDate(s).value.end))
  {
    var parts := Split(s.value, '~');
    JoinSplit(s.value, '~');
    assert Join(['~'], parts) == parts[0] + ['~'] + Join(['~'], parts[1..]);
    assert parts[1..] == [parts[1]];
    FormatParseIso(parts[0]);
    FormatParseIso(parts[1]);
  }

  // ---------------------------------------------------------------------------
  // Rows and keys
  // ---------------------------------------------------------------------------

  /** One row: the posting's columns, its embedding and the parsed term ends. */
  datatype JobRow = JobRow(job: JobOpening, embedding: Embedding, termStart: Option<Date>, termEnd: Option<Date>)

  /** The parameter tuple of one `(dto, embedding)` pair. */
  function JobRowOf(job: JobOpening, embedding: Embedding): (r: JobRow)
    ensures r.job == job && r.embedding == embedding
    ensures r.termStart.Some? <==> r.termEnd.Some?
    ensures r.termEnd.Some? ==>
      ValidDate(r.termStart.value) && ValidDate(r.termEnd.value) &&
      job.termDateStr == Some(FormatIso(r.termStart.value) + "~" + FormatIso(r.termEnd.value))
  {
    match ParseTermDate(job.termDateStr)
    case Some(t) =>
      ParseTermDateExact(job.termDateStr);
      JobRow(job, embedding, Some(t.start), Some(t.end))
    case None => JobRow(job, embedding, None, None)
  }

  /** Conversely, a posting whose term text is the printed form of a valid
      term stores that term's two dates. */
  lemma JobRowOfTerm(job: JobOpening, embedding: Embedding, t: Term)
    requires ValidDate(t.start) && ValidDate(t.end)
    requires job.termDateStr == Some(FormatIso(t.start) + "~" + FormatIso(t.end))
    ensures JobRowOf(job, embedding).termStart == Some(t.start)
    ensures JobRowOf(job, embedding).termEnd == Some(t.end)
  {
    ParseTermDateRoundTrip(t);
  }

  /** The rows of a batch, pair by pair. */
  function JobRowsOf(data: seq<(JobOpening, Embedding)>): (r: seq<JobRow>)
    ensures |r| == |data|
  {
    seq(|data|, i requires 0 <= i < |data| => JobRowOf(data[i].0, data[i].1))
  }

  /** `_build_params_list`: one parameter tuple per pair, in order. */
  method BuildParamsList(data: seq<(JobOpening, Embedding)>) returns (rows: seq<JobRow>)
    ensures rows == JobRowsOf(data)
  {
    rows := [];
    var i := 0;
    while i < |data|
      invariant 0 <= i <= |data|
      invariant rows == JobRowsOf(data[..i])
    {
      rows := rows + [JobRowOf(data[i].0, data[i].1)];
      i := i + 1;
    }
    assert data[..i] == data;
  }

  /** The keys of the stored rows, built from the four selected columns
      with NULL read as "". */
  function KeysOf(rows: seq<JobRow>): set<string> {
    set r | r in rows :: CompositeKey(r.job)
  }

  /** The pairs whose posting's key is not yet stored, in batch order. Equal
      keys within one batch are not compared with each other. */
  function FreshPairs(data: seq<(JobOpening, Embedding)>, keys: set<string>): (r: seq<(JobOpening, Embedding)>)
    ensures |r| <= |data|
    ensures forall p :: p in r <==> p in data && CompositeKey(p.0) !in keys
    decreases |data|
  {
    if data == [] then []
    else
      var last := data[|data| - 1];
      FreshPairs(data[..|data| - 1], keys) + (if CompositeKey(last.0) !in keys then [last] else [])
  }

  /** The comparison keeps batch order and multiplicity: the pairs kept from
      two batches joined are those kept from each, joined, pair by pair. */
  lemma {:induction false} FreshPairsAppend(a: seq<(JobOpening, Embedding)>, b: seq<(JobOpening, Embedding)>, keys: set<string>)
    ensures FreshPairs(a + b, keys) == FreshPairs(a, keys) + FreshPairs(b, keys)
    decreases |b|
  {
    if b == [] {
      assert a + b == a;
    } else {
      var init, last := b[..|b| - 1], b[|b| - 1];
      var tail := (if CompositeKey(last.0) !in keys then [last] else []);
      assert (a + b)[..|a + b| - 1] == a + init && (a + b)[|a + b| - 1] == last;
      calc {
        FreshPairs(a + b, keys);
        FreshPairs(a + init, keys) + tail;
        { FreshPairsAppend(a, init, keys); }
        (FreshPairs(a, keys) + FreshPairs(init, keys)) + tail;
        FreshPairs(a, keys) + (FreshPairs(init, keys) + tail);
        FreshPairs(a, keys) + FreshPairs(b, keys);
      }
    }
  }

  /** Against an empty table every pair of a batch is new. */
  lemma {:induction false} FreshPairsNoKeys(data: seq<(JobOpening, Embedding)>)
    ensures FreshPairs(data, {}) == data
    decreases |data|
  {
    if data != [] {
      FreshPairsNoKeys(data[..|data| - 1]);
      assert data[..|data| - 1] + [data[|data| - 1]] == data;
    }
  }

  /** The postings of a list of pairs. */
  function Jobs(data: seq<(JobOpening, Embedding)>): (r: seq<JobOpening>)
    ensures |r| == |data| && forall i :: 0 <= i < |data| ==> r[i] == data[i].0
  {
    seq(|data|, i requires 0 <= i < |data| => data[i].0)
  }

  /** The loop of `insert_services_batch` that compares each posting's key
      with the snapshot and collects the new pairs and their postings. */
  method SelectNew(data: seq<(JobOpening, Embedding)>, keys: set<string>)
    returns (newPairs: seq<(JobOpening, Embedding)>, newJobs: seq<JobOpening>)
    ensures newPairs == FreshPairs(data, keys)
    ensures newJobs == Jobs(newPairs)
  {
    newPairs, newJobs := [], [];
    var i := 0;
    while i < |data|
      invariant 0 <= i <= |data|
      invariant newPairs == FreshPairs(data[..i], keys)
      invariant newJobs == Jobs(newPairs)
    {
      FreshPairsStep(data, i, keys);
      if CompositeKey(data[i].0) !in keys {
        JobsSnoc(newPairs, data[i]);
        newPairs := newPairs + [data[i]];
        newJobs := newJobs + [data[i].0];
      }
      i := i + 1;
    }
    assert data[..i] == data;
  }

  lemma FreshPairsStep(data: seq<(JobOpening, Embedding)>, i: nat, keys: set<string>)
    requires i < |data|
    ensures FreshPairs(data[..i + 1], keys) ==
      FreshPairs(data[..i], keys) + (if CompositeKey(data[i].0) !in keys then [data[i]] else [])
  {
    assert data[..i + 1][..i] == data[..i];
  }

  lemma JobsSnoc(pairs: seq<(JobOpening, Embedding)>, p: (JobOpening, Embedding))
    ensures Jobs(pairs + [p]) == Jobs(pairs) + [p.0]
  {
  }

  // ---------------------------------------------------------------------------
  // Expiry
  // ---------------------------------------------------------------------------

  /** `term_date_end < CURRENT_DATE`; a row without an end date is never
      expired (SQL's comparison with NULL is not true). */
  predicate Expired(r: JobRow, today: Date) {
    r.termEnd.Some? && Before(r.termEnd.value, today)
  }

  /** The rows the DELETE leaves, in their order. */
  function Unexpired(rows: seq<JobRow>, today: Date): (r: seq<JobRow>)
    ensures |r| <= |rows|
    ensures forall x :: x in r <==> x in rows && !Expired(x, today)
    decreases |rows|
  {
    if rows == [] then []
    else (if Expired(rows[0], today) then [] else [rows[0]]) + Unexpired(rows[1..], today)
  }

  /** A table with no expired row loses nothing. */
  lemma {:induction false} UnexpiredKeepsClean(rows: seq<JobRow>, today: Date)
    requires forall x :: x in rows ==> !Expired(x, today)
    ensures Unexpired(rows, today) == rows
    decreases |rows|
  {
    if rows != [] {
      assert rows[0] in rows;
      assert forall x :: x in rows[1..] ==> x in rows;
      UnexpiredKeepsClean(rows[1..], today);
      assert [rows[0]] + rows[1..] == rows;
    }
  }

  /** Deleting the expired rows a second time deletes nothing. */
  lemma UnexpiredIdempotent(rows: seq<JobRow>, today: Date)
    ensures Unexpired(Unexpired(rows, today), today) == Unexpired(rows, today)
  {
    UnexpiredKeepsClean(Unexpired(rows, today), today);
  }

  /** The rows deleted are exactly the expired ones: their number is the
      number of expired rows. */
  function ExpiredCount(rows: seq<JobRow>, today: Date): nat
    decreases |rows|
  {
    if rows == [] then 0 else (if Expired(rows[0], today) then 1 else 0) + ExpiredCount(rows[1..], today)
  }

  lemma {:induction false} UnexpiredCount(rows: seq<JobRow>, today: Date)
    ensures |Unexpired(rows, today)| + ExpiredCount(rows, today) == |rows|
    ensures ExpiredCount(rows, today) == 0 <==> Unexpired(rows, today) == rows
    decreases |rows|
  {
    if rows != [] {
      UnexpiredCount(rows[1..], today);
      if !Expired(rows[0], today) {
        assert [rows[0]] + rows[1..] == rows;
        var rest := Unexpired(rows[1..], today);
        assert ([rows[0]] + rest)[1..] == rest;
      }
    }
  }

  // ---------------------------------------------------------------------------
  // The repository
  // ---------------------------------------------------------------------------

  class EmploymentRepository {
    /** The session inherited from `BaseRepository`. */
    const conn: Connection<JobRow>

    constructor (conn: Connection<JobRow>)
      ensures this.conn == conn
    {
      this.conn := conn;
    }

    /** `get_existing_ids`: no id-based duplicate check for postings; the
      composite key does that job at insert time. */
    method GetExistingIds(ids: seq<string>) returns (r: set<string>)
      ensures r == {}
    {
      r := {};
    }

    /** `_get_existing_keys_set`: one SELECT, then the key of every row. A
      driver error is rolled back and raised again; any other error escapes. */
    method GetExistingKeysSet() returns (r: Result<set<string>, Fault>)
      modifies conn
      ensures conn.stmts == old(conn.stmts) + 1
      ensures conn.committed == old(conn.committed) && conn.closed == old(conn.closed)
      ensures conn.FaultAt(old(conn.stmts)) == None ==>
        r == Success(KeysOf(old(conn.table))) && conn.table == old(conn.table)
      ensures conn.FaultAt(old(conn.stmts)) == Some(DbError) ==>
        r == Failure(DbError) && conn.table == old(conn.committed)
      ensures conn.FaultAt(old(conn.stmts)) == Some(Unexpected) ==>
        r == Failure(Unexpected) && conn.table == old(conn.table)
    {
      var f := conn.Execute();
      match f
      case Some(DbError) =>
        conn.Rollback();
        return Failure(DbError);
      case Some(Unexpected) =>
        return Failure(Unexpected);
      case None =>
      var rows := conn.table;
      var keys: set<string> := {};
      var i := 0;
      while i < |rows|
        invariant 0 <= i <= |rows|
        invariant keys == KeysOf(rows[..i])
      {
        assert rows[..i + 1] == rows[..i] + [rows[i]];
        keys := keys + {CompositeKey(rows[i].job)};
        i := i + 1;
      }
      assert rows[..i] == rows;
      r := Success(keys);
    }

    /** `insert_services_batch` with the posting's composite key: nothing for
      an empty batch; a failed key query gives nothing (driver error) or
      escapes; otherwise the pairs whose key is not stored are inserted in
      one statement and their postings returned, or, when that statement
      fails, the transaction is rolled back and nothing is returned. */
    method InsertServicesBatch(data: seq<(JobOpening, Embedding)>) returns (r: Outcome<seq<JobOpening>>)
      modifies conn
      ensures conn.committed == old(conn.committed) && conn.closed == old(conn.closed)
      ensures data == [] ==> r == Returned([]) && conn.table == old(conn.table) && conn.stmts == old(conn.stmts)
      ensures data != [] && conn.FaultAt(old(conn.stmts)) == Some(DbError) ==>
        r == Returned([]) && conn.table == old(conn.committed) && conn.stmts == old(conn.stmts) + 1
      ensures data != [] && conn.FaultAt(old(conn.stmts)) == Some(Unexpected) ==>
        r == Raised && conn.table == old(conn.table) && conn.stmts == old(conn.stmts) + 1
      ensures data != [] && conn.FaultAt(old(conn.stmts)) == None ==>
        var newPairs := FreshPairs(data, KeysOf(old(conn.table)));
        if newPairs == [] then
          r == Returned([]) && conn.table == old(conn.table) && conn.stmts == old(conn.stmts) + 1
        else if conn.FaultAt(old(conn.stmts) + 1) == None then
          r == Returned(Jobs(newPairs)) && conn.table == old(conn.table) + JobRowsOf(newPairs) &&
          conn.stmts == old(conn.stmts) + 2
        else
          r == Returned([]) && conn.table == old(conn.committed) && conn.stmts == old(conn.stmts) + 2
    {
      if data == [] {
        return Returned([]);
      }
      var keysResult := GetExistingKeysSet();
      if keysResult == Failure(DbError) {
        return Returned([]);
      } else if keysResult == Failure(Unexpected) {
        return Raised;
      }
      var newPairs, newJobs := SelectNew(data, keysResult.value);
      if newPairs == [] {
        return Returned([]);
      }
      var rows := BuildParamsList(newPairs);
      var f := conn.Execute();
      if f == None {
        conn.table := conn.table + rows;
        r := Returned(newJobs);
      } else {
        conn.Rollback();
        r := Returned([]);
      }
    }

    /** `delete_expired_jobs` on the day `today`: the expired rows go and
      their number is returned; a driver error is rolled back and reported
      as 0; any other error escapes. */
    method DeleteExpiredJobs(today: Date) returns (r: Outcome<nat>)
      modifies conn
      ensures conn.stmts == old(conn.stmts) + 1
      ensures conn.committed == old(conn.committed) && conn.closed == old(conn.closed)
      ensures conn.FaultAt(old(conn.stmts)) == None ==>
        conn.table == Unexpired(old(conn.table), today) &&
        r == Returned(ExpiredCount(old(conn.table), today))
      ensures conn.FaultAt(old(conn.stmts)) == Some(DbError) ==>
        r == Returned(0) && conn.table == old(conn.committed)
      ensures conn.FaultAt(old(conn.stmts)) == Some(Unexpected) ==>
        r == Raised && conn.table == old(conn.table)
    {
      var f := conn.Execute();
      match f
      case None =>
        UnexpiredCount(conn.table, today);
        var before := |conn.table|;
        conn.table := Unexpired(conn.table, today);
        r := Returned(before - |conn.table|);
      case Some(DbError) =>
        conn.Rollback();
        r := Returned(0);
      case Some(Unexpected) =>
        r := Raised;
    }
  }

  // ---------------------------------------------------------------------------
  // The key lookup as written
  // ---------------------------------------------------------------------------

  /** The comparison loop of `insert_services_batch` as written: it calls
      `get_composite_key()` on each posting, a method the posting type does
      not define, so the first pair raises `AttributeError` and no batch ever
      gets past the key comparison. */
  function FreshPairsAsWritten(data: seq<(JobOpening, Embedding)>, keys: set<string>): (r: Outcome<seq<(JobOpening, Embedding)>>)
    ensures r.Returned? <==> data == []
  {
    if data == [] then Returned([]) else Raised
  }

  /** With an empty table, the corrected comparison keeps a one-posting batch
      while the written one raises. */
  lemma KeyLookupAsWrittenRaises(j: JobOpening, e: Embedding)
    ensures FreshPairsAsWritten([(j, e)], {}) == Raised
    ensures FreshPairs([(j, e)], {}) == [(j, e)]
  {
    FreshPairsNoKeys([(j, e)]);
  }
}
