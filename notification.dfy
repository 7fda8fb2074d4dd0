/** The SQS publisher: new records go to the queue in batches of at most
    ten messages, and any failed batch raises so that the caller rolls back
    its database transaction. */
module Notification {
  import opened Wrappers
  import opened Dto

  /** `MAX_BATCH_SIZE`: the most entries one `send_message_batch` call takes. */
  const MaxBatchSize: nat := 10

  /** The message of `__init__` when no queue URL is configured. */
  const MissingQueueUrl: string := "FATAL: SQS_QUEUE_URL이(가) 설정되지 않았습니다."

  /** One batch entry: the message id (the record's `service_id`) and the
      record whose JSON form is the message body. */
  datatype Entry = Entry(id: string, body: Dto)

  /** How a `send_message_batch` call fails: the response lists failed
      entries, or the client raises. Either way the publisher raises. */
  datatype SendFault = PartialFailure | ClientError

  // ---------------------------------------------------------------------------
  // Chunks
  // ---------------------------------------------------------------------------

  function Flatten<T>(xs: seq<seq<T>>): seq<T>
    decreases |xs|
  {
    if xs == [] then [] else xs[0] + Flatten(xs[1..])
  }

  /** `dtos[i:i + 10]` for `i` in `range(0, len(dtos), 10)`. */
  function Chunks(dtos: seq<Dto>): (r: seq<seq<Dto>>)
    ensures forall k :: 0 <= k < |r| ==> 1 <= |r[k]| <= MaxBatchSize
    decreases |dtos|
  {
    if dtos == [] then []
    else if |dtos| <= MaxBatchSize then [dtos]
    else [dtos[..MaxBatchSize]] + Chunks(dtos[MaxBatchSize..])
  }

  /** The chunks, put back together, are the input: every record is in
      exactly one chunk, in order. */
  lemma {:induction false} FlattenChunks(dtos: seq<Dto>)
    ensures Flatten(Chunks(dtos)) == dtos
    decreases |dtos|
  {
    if |dtos| > MaxBatchSize {
      FlattenChunks(dtos[MaxBatchSize..]);
      var r := Chunks(dtos);
      assert r[1..] == Chunks(dtos[MaxBatchSize..]);
      assert dtos[..MaxBatchSize] + dtos[MaxBatchSize..] == dtos;
    } else if dtos != [] {
      assert Chunks(dtos)[1..] == [];
    }
  }

  /** There are ceil(n / 10) chunks. */
  lemma {:induction false} ChunkCount(dtos: seq<Dto>)
    ensures |Chunks(dtos)| == (|dtos| + MaxBatchSize - 1) / MaxBatchSize
    decreases |dtos|
  {
    if |dtos| > MaxBatchSize {
      ChunkCount(dtos[MaxBatchSize..]);
    }
  }

  // ---------------------------------------------------------------------------
  // Entries and the publishing run
  // ---------------------------------------------------------------------------

  /** The entries of one chunk. Reading `service_id` of a posting raises, and
      the handler's log line reads it again, so a chunk holding a posting
      raises out of the publisher (`None`). */
  function EntriesOf(chunk: seq<Dto>): Option<seq<Entry>>
    decreases |chunk|
  {
    if chunk == [] then Some([])
    else if chunk[0].Job? then None
    else
      match EntriesOf(chunk[1..])
      case None => None
      case Some(rest) => Some([Entry(chunk[0].service.serviceId, chunk[0])] + rest)
  }

  /** A chunk has entries exactly when it holds records only, and then one
      entry per record, in order, whose id is the record's `service_id`. */
  lemma {:induction false} EntriesOfExact(chunk: seq<Dto>)
    ensures EntriesOf(chunk).Some? <==> forall i :: 0 <= i < |chunk| ==> chunk[i].Welfare?
    ensures EntriesOf(chunk).Some? ==> |EntriesOf(chunk).value| == |chunk|
    ensures EntriesOf(chunk).Some? ==>
      forall i :: 0 <= i < |chunk| ==> EntriesOf(chunk).value[i] == Entry(chunk[i].service.serviceId, chunk[i])
    decreases |chunk|
  {
    if chunk != [] {
      var tail := chunk[1..];
      EntriesOfExact(tail);
      assert forall i :: 1 <= i < |chunk| ==> chunk[i] == tail[i - 1];
    }
  }

  /** What a publishing run does: the requests it sends, and whether it raises. */
  datatype Run = Run(requests: seq<seq<Entry>>, raised: bool)

  /** Requests `sent` come first, then whatever the rest of the run does. */
  function After(sent: seq<seq<Entry>>, rest: Run): Run {
    Run(sent + rest.requests, rest.raised)
  }

  /** The run over `chunks` whose first request is call number `n`: chunk by
      chunk, raise on a chunk whose entries cannot be built (nothing is
      sent for it), otherwise send it and raise if that call fails. */
  function RunOf(chunks: seq<seq<Dto>>, faults: map<nat, SendFault>, n: nat): (r: Run)
    ensures |r.requests| <= |chunks|
    decreases |chunks|
  {
    if chunks == [] then Run([], false)
    else
      match EntriesOf(chunks[0])
      case None => Run([], true)
      case Some(entries) =>
        if n in faults then Run([entries], true)
        else After([entries], RunOf(chunks[1..], faults, n + 1))
  }

  /** Records only: when no call fails, the run sends every record once, in
      order, as ceil(n / 10) requests, and does not raise. */
  lemma {:induction false} RunAllRecords(chunks: seq<seq<Dto>>, faults: map<nat, SendFault>, n: nat)
    requires forall k, i :: 0 <= k < |chunks| && 0 <= i < |chunks[k]| ==> chunks[k][i].Welfare?
    requires forall m :: n <= m < n + |chunks| ==> m !in faults
    ensures !RunOf(chunks, faults, n).raised
    ensures |RunOf(chunks, faults, n).requests| == |chunks|
    ensures forall k :: 0 <= k < |chunks| ==> Some(RunOf(chunks, faults, n).requests[k]) == EntriesOf(chunks[k])
    decreases |chunks|
  {
    if chunks != [] {
      EntriesOfExact(chunks[0]);
      assert EntriesOf(chunks[0]).Some?;
      RunAllRecords(chunks[1..], faults, n + 1);
    }
  }

  /** Every record of a chunk is a record of the list it was cut from. */
  lemma {:induction false} ChunkMember(dtos: seq<Dto>, k: nat, i: nat)
    requires k < |Chunks(dtos)| && i < |Chunks(dtos)[k]|
    ensures Chunks(dtos)[k][i] in dtos
    decreases |dtos|
  {
    if |dtos| > MaxBatchSize {
      if k == 0 {
        assert Chunks(dtos)[0][i] == dtos[i];
      } else {
        assert Chunks(dtos)[k] == Chunks(dtos[MaxBatchSize..])[k - 1];
        ChunkMember(dtos[MaxBatchSize..], k - 1, i);
      }
    }
  }

  /** Publishing records only, with no failing call, does not raise. */
  lemma PublishRecords(dtos: seq<Dto>, faults: map<nat, SendFault>, n: nat)
    requires forall i :: 0 <= i < |dtos| ==> dtos[i].Welfare?
    requires faults == map[]
    ensures !RunOf(Chunks(dtos), faults, n).raised
  {
    var chunks: seq<seq<Dto>> := Chunks(dtos);
    forall k: nat, i: nat | k < |chunks| && i < |chunks[k]|
      ensures chunks[k][i].Welfare?
    {
      ChunkMember(dtos, k, i);
    }
    RunAllRecords(chunks, faults, n);
  }

  /** A chunk holding a posting makes the run raise, whatever the queue does. */
  lemma {:induction false} RunRaisesOnPosting(chunks: seq<seq<Dto>>, faults: map<nat, SendFault>, n: nat, k: nat, i: nat)
    requires k < |chunks| && i < |chunks[k]| && chunks[k][i].Job?
    ensures RunOf(chunks, faults, n).raised
    decreases k
  {
    if k == 0 {
      EntriesOfExact(chunks[0]);
    } else {
      match EntriesOf(chunks[0])
      case None =>
      case Some(_) =>
        if n !in faults {
          RunRaisesOnPosting(chunks[1..], faults, n + 1, k - 1, i);
        }
    }
  }

  /** The run of a whole list raises as soon as the list holds a posting. */
  lemma PublishRaisesOnPosting(dtos: seq<Dto>, faults: map<nat, SendFault>, n: nat, i: nat)
    requires i < |dtos| && dtos[i].Job?
    ensures RunOf(Chunks(dtos), faults, n).raised
  {
    ChunkOf(dtos, i);
    var k, j :| 0 <= k < |Chunks(dtos)| && 0 <= j < |Chunks(dtos)[k]| && Chunks(dtos)[k][j] == dtos[i];
    RunRaisesOnPosting(Chunks(dtos), faults, n, k, j);
  }

  /** Every record of the list sits in some chunk. */
  lemma {:induction false} ChunkOf(dtos: seq<Dto>, i: nat)
    requires i < |dtos|
    ensures exists k, j :: 0 <= k < |Chunks(dtos)| && 0 <= j < |Chunks(dtos)[k]| && Chunks(dtos)[k][j] == dtos[i]
    decreases |dtos|
  {
    var c := Chunks(dtos);
    if |dtos| <= MaxBatchSize {
      assert c[0][i] == dtos[i];
    } else if i < MaxBatchSize {
      assert c[0][i] == dtos[i];
    } else {
      ChunkOf(dtos[MaxBatchSize..], i - MaxBatchSize);
      var k, j :| 0 <= k < |Chunks(dtos[MaxBatchSize..])| && 0 <= j < |Chunks(dtos[MaxBatchSize..])[k]|
        && Chunks(dtos[MaxBatchSize..])[k][j] == dtos[MaxBatchSize..][i - MaxBatchSize];
      assert c[k + 1] == Chunks(dtos[MaxBatchSize..])[k];
    }
  }

  lemma AfterAssoc(a: seq<seq<Entry>>, b: seq<seq<Entry>>, r: Run)
    ensures After(a, After(b, r)) == After(a + b, r)
  {
    assert a + (b + r.requests) == (a + b) + r.requests;
  }

  /** A run that does not raise sent every chunk, each as its entries. */
  lemma {:induction false} RunCompleted(chunks: seq<seq<Dto>>, faults: map<nat, SendFault>, n: nat)
    requires !RunOf(chunks, faults, n).raised
    ensures |RunOf(chunks, faults, n).requests| == |chunks|
    ensures forall k :: 0 <= k < |chunks| ==>
      EntriesOf(chunks[k]) == Some(RunOf(chunks, faults, n).requests[k])
    decreases |chunks|
  {
    if chunks != [] {
      RunCompleted(chunks[1..], faults, n + 1);
      var r := RunOf(chunks, faults, n);
      var rest := RunOf(chunks[1..], faults, n + 1);
      assert r.requests == [EntriesOf(chunks[0]).value] + rest.requests;
      forall k | 1 <= k < |chunks|
        ensures EntriesOf(chunks[k]) == Some(r.requests[k])
      {
        assert chunks[k] == chunks[1..][k - 1];
      }
    }
  }

  /** The message of record `s` is among the requests. */
  ghost predicate Published(requests: seq<seq<Entry>>, s: WelfareService) {
    exists k, j :: 0 <= k < |requests| && 0 <= j < |requests[k]| && requests[k][j] == Entry(s.serviceId, Welfare(s))
  }

  /** Later requests do not take back earlier ones. */
  lemma PublishedGrows(requests: seq<seq<Entry>>, more: seq<seq<Entry>>, s: WelfareService)
    requires Published(requests, s)
    ensures Published(requests + more, s)
  {
    var k, j :| 0 <= k < |requests| && 0 <= j < |requests[k]| && requests[k][j] == Entry(s.serviceId, Welfare(s));
    assert (requests + more)[k] == requests[k];
  }

  /** A publishing run that does not raise sent the message of every record
      of its list: the records are all welfare services, each published. */
  lemma PublishedAll(dtos: seq<Dto>, faults: map<nat, SendFault>, n: nat, before: seq<seq<Entry>>)
    requires !RunOf(Chunks(dtos), faults, n).raised
    ensures forall i :: 0 <= i < |dtos| ==>
      dtos[i].Welfare? && Published(before + RunOf(Chunks(dtos), faults, n).requests, dtos[i].service)
  {
    var chunks := Chunks(dtos);
    var reqs := RunOf(chunks, faults, n).requests;
    RunCompleted(chunks, faults, n);
    forall i | 0 <= i < |dtos|
      ensures dtos[i].Welfare? && Published(before + reqs, dtos[i].service)
    {
      ChunkOf(dtos, i);
      var k, j :| 0 <= k < |chunks| && 0 <= j < |chunks[k]| && chunks[k][j] == dtos[i];
      assert EntriesOf(chunks[k]) == Some(reqs[k]);
      EntriesOfExact(chunks[k]);
      assert (before + reqs)[|before| + k][j] == Entry(dtos[i].service.serviceId, dtos[i]);
    }
  }

  /** A list of postings raises at its first chunk, before any request. */
  lemma RunOnPostings(dtos: seq<Dto>, faults: map<nat, SendFault>, n: nat)
    requires dtos != [] && dtos[0].Job?
    ensures RunOf(Chunks(dtos), faults, n) == Run([], true)
  {
    assert Chunks(dtos)[0][0] == dtos[0];
  }

  /** The chunks from position `i` on: the chunk at `i`, then the chunks after it. */
  lemma ChunksStep(dtos: seq<Dto>, i: nat, j: nat)
    requires i < |dtos| && j == (if i + MaxBatchSize <= |dtos| then i + MaxBatchSize else |dtos|)
    ensures Chunks(dtos[i..]) == [dtos[i..j]] + Chunks(dtos[j..])
  {
    var rest := dtos[i..];
    if |rest| > MaxBatchSize {
      assert rest[..MaxBatchSize] == dtos[i..j];
      assert rest[MaxBatchSize..] == dtos[j..];
    } else {
      assert rest == dtos[i..j];
      assert dtos[j..] == [];
    }
  }

  /** One step of a run: the first chunk either raises or is sent, then the rest follows. */
  lemma RunStep(c: seq<Dto>, cs: seq<seq<Dto>>, faults: map<nat, SendFault>, n: nat)
    ensures EntriesOf(c).None? ==> RunOf([c] + cs, faults, n) == Run([], true)
    ensures EntriesOf(c).Some? && n in faults ==> RunOf([c] + cs, faults, n) == Run([EntriesOf(c).value], true)
    ensures EntriesOf(c).Some? && n !in faults ==>
      RunOf([c] + cs, faults, n) == After([EntriesOf(c).value], RunOf(cs, faults, n + 1))
  {
    assert ([c] + cs)[1..] == cs;
  }

  // ---------------------------------------------------------------------------
  // The service
  // ---------------------------------------------------------------------------

  class NotificationService {
    const queueUrl: string
    /** Call number to the failure of that `send_message_batch` call. */
    const sendFaults: map<nat, SendFault>
    /** Every `send_message_batch` request made, in order. */
    var requests: seq<seq<Entry>>

    constructor (queueUrl: string, sendFaults: map<nat, SendFault>)
      requires queueUrl != ""
      ensures this.queueUrl == queueUrl && this.sendFaults == sendFaults && requests == []
    {
      this.queueUrl := queueUrl;
      this.sendFaults := sendFaults;
      requests := [];
    }

    /** `send_message_batch`: the request is made; `raised` when it fails. */
    method SendMessageBatch(entries: seq<Entry>) returns (raised: bool)
      modifies this
      ensures requests == old(requests) + [entries]
      ensures raised <==> |old(requests)| in sendFaults
    {
      raised := |requests| in sendFaults;
      requests := requests + [entries];
    }

    /** One pass of the chunk loop: build the chunk's entries (a record
      without `service_id` raises before anything is sent) and send them.
      `e` is the request made, if any. */
    method PublishChunk(chunk: seq<Dto>) returns (e: seq<seq<Entry>>, raised: bool)
      modifies this
      ensures requests == old(requests) + e
      ensures EntriesOf(chunk).None? ==> raised && e == []
      ensures EntriesOf(chunk).Some? ==>
        e == [EntriesOf(chunk).value] && (raised <==> |old(requests)| in sendFaults)
    {
      var entries := EntriesOf(chunk);
      if entries.None? {
        return [], true;
      }
      raised := SendMessageBatch(entries.value);
      e := [entries.value];
    }

    /** `publish_new_services`: nothing for an empty list; otherwise chunk by
      chunk, build the entries and send them, stopping with an exception at
      the first chunk that cannot be built or sent. */
    method PublishNewServices(dtos: seq<Dto>) returns (raised: bool)
      modifies this
      ensures dtos == [] ==> !raised && requests == old(requests)
      ensures After(old(requests), RunOf(Chunks(dtos), sendFaults, |old(requests)|)) == Run(requests, raised)
    {
      if dtos == [] {
        return false;
      }
      raised := SendChunks(Chunks(dtos));
    }

    /** The chunk loop: each chunk in turn, until one raises. */
    method SendChunks(chunks: seq<seq<Dto>>) returns (raised: bool)
      modifies this
      ensures After(old(requests), RunOf(chunks, sendFaults, |old(requests)|)) == Run(requests, raised)
    {
      ghost var run0 := RunOf(chunks, sendFaults, |requests|);
      ghost var sent: seq<seq<Entry>> := [];
      raised := false;
      for k := 0 to |chunks|
        invariant requests == old(requests) + sent
        invariant After(sent, RunOf(chunks[k..], sendFaults, |requests|)) == run0
      {
        ghost var m := |requests|;
        assert chunks[k..] == [chunks[k]] + chunks[k + 1..];
        RunStep(chunks[k], chunks[k + 1..], sendFaults, m);
        var e;
        e, raised := PublishChunk(chunks[k]);
        if raised {
          sent := sent + e;
          return;
        }
        AfterAssoc(sent, e, RunOf(chunks[k + 1..], sendFaults, m + 1));
        sent := sent + e;
      }
      assert chunks[|chunks|..] == [];
    }
  }

  /** `__init__`: an empty queue URL is refused with `ValueError`. */
  method Create(queueUrl: string, sendFaults: map<nat, SendFault>) returns (r: Result<NotificationService, string>)
    ensures queueUrl == "" <==> r.Failure?
    ensures r.Failure? ==> r.error == MissingQueueUrl
    ensures r.Success? ==> fresh(r.value)
    ensures r.Success? ==> r.value.queueUrl == queueUrl && r.value.sendFaults == sendFaults && r.value.requests == []
  {
    if queueUrl == "" {
      return Failure(MissingQueueUrl);
    }
    var s := new NotificationService(queueUrl, sendFaults);
    return Success(s);
  }
}
