/** The chatbot's background worker: a batch of queue messages, each a chat
    turn to embed and log. Every message is counted once, as a success when
    it reached the log call and as a failure otherwise. The embedding model
    and the database are parameters: the model's reply per text, and the
    repository's inserts that fail. */
module WorkerService {
  import opened Wrappers
  import J = Json

  const Completed: string := "completed"
  /** The length of the vector logged when the embedding call raises. */
  const EmbeddingWidth: nat := 1024

  /** `[0.0] * 1024`. */
  function ZeroVector(): (r: seq<real>)
    ensures |r| == EmbeddingWidth && forall i :: 0 <= i < |r| ==> r[i] == 0.0
  {
    seq(EmbeddingWidth, i => 0.0)
  }

  /** The model call: it raises, or it returns the decoded body's
      `embedding` value (`None` when the body has none). */
  datatype EmbedReply = Raised | Returned(vector: Option<seq<real>>)

  /** One row of `cbt_logs` as the worker asks for it. */
  datatype LogEntry = LogEntry(userId: J.Value, sessionId: J.Value, userInput: J.Value,
                               botResponse: J.Value, embedding: Option<seq<real>>)

  /** The batch summary the worker returns. */
  datatype BatchResult = BatchResult(status: string, processed: nat, success: nat, failed: nat)

  /** A message that reaches the log call: its body decodes to an object
      whose `user_id`, `session_id` and `user_input` are all truthy. */
  predicate Accepted(record: J.Body) {
    record.Object? &&
    J.Truthy(J.Lookup(record.fields, "user_id")) &&
    J.Truthy(J.Lookup(record.fields, "session_id")) &&
    J.Truthy(J.Lookup(record.fields, "user_input"))
  }

  /** The vector logged for a reply: the returned value, or the zero vector
      when the call raised. */
  function Vector(reply: EmbedReply): (r: Option<seq<real>>)
    ensures reply.Raised? ==> r == Some(ZeroVector()) && |r.value| == EmbeddingWidth
    ensures reply.Returned? ==> r == reply.vector
  {
    if reply.Raised? then Some(ZeroVector()) else reply.vector
  }

  /** The row logged for an accepted message: its fields as they came and
      the vector of its `user_input`. */
  function EntryOf(record: J.Body, embed: J.Value -> EmbedReply): (r: LogEntry)
    requires record.Object?
    ensures r.sessionId == J.Lookup(record.fields, "session_id")
    ensures r.userInput == J.Lookup(record.fields, "user_input")
    ensures r.embedding == Vector(embed(J.Lookup(record.fields, "user_input")))
  {
    var f := record.fields;
    LogEntry(J.Lookup(f, "user_id"), J.Lookup(f, "session_id"), J.Lookup(f, "user_input"),
             J.Lookup(f, "bot_response"), Vector(embed(J.Lookup(f, "user_input"))))
  }

  /** The rows the accepted messages ask for, in message order. */
  function Entries(records: seq<J.Body>, embed: J.Value -> EmbedReply): (r: seq<LogEntry>)
    ensures |r| <= |records|
    decreases |records|
  {
    if records == [] then []
    else
      var last := records[|records| - 1];
      Entries(records[..|records| - 1], embed) + (if Accepted(last) then [EntryOf(last, embed)] else [])
  }

  /** The rows of `entries` whose insert goes through when the first is the
      `start`-th insert of the connection. */
  function Stored(entries: seq<LogEntry>, start: nat, failing: set<nat>): (r: seq<LogEntry>)
    ensures |r| <= |entries|
    decreases |entries|
  {
    if entries == [] then []
    else
      var n := |entries| - 1;
      Stored(entries[..n], start, failing) + (if start + n in failing then [] else [entries[n]])
  }

  /** When no insert fails, every requested row is stored. */
  lemma {:induction false} StoredAll(entries: seq<LogEntry>, start: nat, failing: set<nat>)
    requires forall k :: start <= k < start + |entries| ==> k !in failing
    ensures Stored(entries, start, failing) == entries
    decreases |entries|
  {
    if entries != [] {
      var n := |entries| - 1;
      StoredAll(entries[..n], start, failing);
      assert entries[..n] + [entries[n]] == entries;
    }
  }

  /** The repository the worker logs through. `log_cbt_session` catches its
      own errors: an insert that fails is rolled back and nothing escapes. */
  class ChatRepository {
    /** The rows committed to `cbt_logs`, in order. */
    var logs: seq<LogEntry>
    /** How many inserts were attempted. */
    var calls: nat
    /** The indexes of the attempted inserts that fail. */
    const failing: set<nat>

    constructor (failing: set<nat>)
      ensures logs == [] && calls == 0 && this.failing == failing
    {
      logs := [];
      calls := 0;
      this.failing := failing;
    }

    /** `log_cbt_session`: one insert, committed unless it fails. */
    method LogCbtSession(entry: LogEntry)
      modifies this
      ensures calls == old(calls) + 1
      ensures logs == old(logs) + (if old(calls) in failing then [] else [entry])
    {
      if calls !in failing {
        logs := logs + [entry];
      }
      calls := calls + 1;
    }
  }

  /** `process_sqs_batch`: every message is counted once; the accepted ones
      are embedded and logged, in order, and count as successes whether or
      not their insert went through; the rest count as failures. */
  method ProcessSqsBatch(repo: ChatRepository, records: seq<J.Body>, embed: J.Value -> EmbedReply)
    returns (r: BatchResult)
    modifies repo
    ensures r == BatchResult(Completed, |records|, |Entries(records, embed)|, |records| - |Entries(records, embed)|)
    ensures repo.calls == old(repo.calls) + |Entries(records, embed)|
    ensures repo.logs == old(repo.logs) + Stored(Entries(records, embed), old(repo.calls), repo.failing)
  {
    var success, failed := 0, 0;
    ghost var start := repo.calls;
    ghost var logs0 := repo.logs;
    for i := 0 to |records|
      invariant success == |Entries(records[..i], embed)| && success + failed == i
      invariant repo.calls == start + success
      invariant repo.logs == logs0 + Stored(Entries(records[..i], embed), start, repo.failing)
    {
      var record := records[i];
      assert records[..i + 1][..i] == records[..i];
      ghost var before := Entries(records[..i], embed);
      if Accepted(record) {
        var f := record.fields;
        var reply := embed(J.Lookup(f, "user_input"));
        var vector := if reply.Raised? then Some(ZeroVector()) else reply.vector;
        var entry := LogEntry(J.Lookup(f, "user_id"), J.Lookup(f, "session_id"), J.Lookup(f, "user_input"),
                              J.Lookup(f, "bot_response"), vector);
        repo.LogCbtSession(entry);
        assert Entries(records[..i + 1], embed) == before + [entry];
        assert (before + [entry])[..|before|] == before;
        assert Stored(before + [entry], start, repo.failing) ==
          Stored(before, start, repo.failing) + (if start + |before| in repo.failing then [] else [entry]);
        success := success + 1;
      } else {
        assert Entries(records[..i + 1], embed) == before;
        failed := failed + 1;
      }
    }
    assert records[..|records|] == records;
    r := BatchResult(Completed, |records|, success, failed);
  }

  /** A message whose body is well formed and carries the three fields. */
  function Message(userId: string, sessionId: string, userInput: string): J.Body {
    J.Object(map["user_id" := J.Str(userId), "session_id" := J.Str(sessionId),
                 "user_input" := J.Str(userInput), "bot_response" := J.Other(true)])
  }

  /** The two well-formed messages of the first batch both reach the log call,
      the first for session "session_A", so the batch reports two successes
      and no failure. */
  lemma BatchAllAccepted(embed: J.Value -> EmbedReply)
    ensures var records := [Message("user_1", "session_A", "안녕하세요"), Message("user_2", "session_B", "테스트입니다")];
      |Entries(records, embed)| == 2 && Entries(records, embed)[0].sessionId == J.Str("session_A")
  {
    var a, b := Message("user_1", "session_A", "안녕하세요"), Message("user_2", "session_B", "테스트입니다");
    assert Accepted(a) && Accepted(b);
    var records := [a, b];
    assert records[..1] == [a] && [a][..0] == [];
  }

  /** Of a well-formed message, a body that does not decode and a body with
      only `user_id`, one reaches the log call: one success, two failures. */
  lemma BatchPartlyRejected(embed: J.Value -> EmbedReply)
    ensures var records := [Message("u1", "s1", "ok"), J.NotJson, J.Object(map["user_id" := J.Str("u2")])];
      |Entries(records, embed)| == 1 && |records| - |Entries(records, embed)| == 2
  {
    var a, c := Message("u1", "s1", "ok"), J.Object(map["user_id" := J.Str("u2")]);
    assert Accepted(a) && !Accepted(J.NotJson) && !Accepted(c);
    var records := [a, J.NotJson, c];
    assert records[..2] == [a, J.NotJson] && [a, J.NotJson][..1] == [a] && [a][..0] == [];
  }
}
