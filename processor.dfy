/** `IngestProcessor`: the page loop that fetches records, drops the known
    ones, embeds the rest, stores and publishes them in one transaction, and
    commits page by page. The welfare table and the employment table take
    different paths through it. */
module Processor {
  import opened Wrappers
  import opened Dates
  import opened Dto
  import opened Connection
  import W = WelfareRepository
  import E = EmploymentRepository
  import opened Notification

  /** The store a processor writes to. */
  datatype Repo = WelfareRepo(w: W.WelfareRepository) | EmploymentRepo(e: E.EmploymentRepository)

  /** The records a fetcher yields for page `start + k`: `pages[k]`, and
      nothing past the end. */
  function PageAt<T>(pages: seq<seq<T>>, k: int): seq<T> {
    if 0 <= k < |pages| then pages[k] else []
  }

  /** The index of the first empty page: the loop's only exit. */
  function FirstEmpty<T>(pages: seq<seq<T>>): (r: nat)
    ensures r <= |pages|
    ensures forall k :: 0 <= k < r ==> pages[k] != []
    ensures r < |pages| ==> pages[r] == []
    decreases |pages|
  {
    if pages == [] || pages[0] == [] then 0 else 1 + FirstEmpty(pages[1..])
  }

  /** Up to the first empty page, a page is empty exactly at that index:
      the run stops there and nowhere before. */
  lemma PageAtFirstEmpty<T>(pages: seq<seq<T>>, k: int)
    requires 0 <= k <= FirstEmpty(pages)
    ensures PageAt(pages, k) == [] <==> k == FirstEmpty(pages)
  {
  }

  /** Every record of every page is of the kind the store holds. */
  predicate Fits(repo: Repo, pages: seq<seq<Dto>>) {
    forall k, i :: 0 <= k < |pages| && 0 <= i < |pages[k]| ==>
      (if repo.WelfareRepo? then pages[k][i].Welfare? else pages[k][i].Job?)
  }

  function Services(dtos: seq<Dto>): (r: seq<WelfareService>)
    requires forall i :: 0 <= i < |dtos| ==> dtos[i].Welfare?
    ensures |r| == |dtos|
  {
    seq(|dtos|, i requires 0 <= i < |dtos| => dtos[i].service)
  }

  function Postings(dtos: seq<Dto>): (r: seq<JobOpening>)
    requires forall i :: 0 <= i < |dtos| ==> dtos[i].Job?
    ensures |r| == |dtos|
  {
    seq(|dtos|, i requires 0 <= i < |dtos| => dtos[i].job)
  }

  /** `[dto.service_id for dto in service_dtos if hasattr(dto, 'service_id')]`. */
  function IdsFromApi(dtos: seq<Dto>): (r: seq<string>)
    ensures (forall i :: 0 <= i < |dtos| ==> dtos[i].Job?) ==> r == []
    ensures (forall i :: 0 <= i < |dtos| ==> dtos[i].Welfare?) ==>
      |r| == |dtos| && forall i :: 0 <= i < |dtos| ==> r[i] == dtos[i].service.serviceId
    decreases |dtos|
  {
    if dtos == [] then []
    else (if dtos[0].Welfare? then [dtos[0].service.serviceId] else []) + IdsFromApi(dtos[1..])
  }

  /** `[dto for dto in service_dtos if dto.service_id not in existing_ids]`. */
  function FilterNew(services: seq<WelfareService>, existing: set<string>): (r: seq<WelfareService>)
    ensures |r| <= |services|
    ensures forall s {:trigger s in r} {:trigger s in services} :: s in r <==> s in services && s.serviceId !in existing
    decreases |services|
  {
    if services == [] then []
    else
      var last := services[|services| - 1];
      FilterNew(services[..|services| - 1], existing) + (if last.serviceId !in existing then [last] else [])
  }

  /** The filter keeps order and multiplicity: the records kept from two
      lists joined are those kept from each, joined, record by record. */
  lemma {:induction false} FilterNewAppend(a: seq<WelfareService>, b: seq<WelfareService>, existing: set<string>)
    ensures FilterNew(a + b, existing) == FilterNew(a, existing) + FilterNew(b, existing)
    decreases |b|
  {
    if b == [] {
      assert a + b == a;
    } else {
      var init, last := b[..|b| - 1], b[|b| - 1];
      var tail := (if last.serviceId !in existing then [last] else []);
      assert (a + b)[..|a + b| - 1] == a + init && (a + b)[|a + b| - 1] == last;
      calc {
        FilterNew(a + b, existing);
        FilterNew(a + init, existing) + tail;
        { FilterNewAppend(a, init, existing); }
        (FilterNew(a, existing) + FilterNew(init, existing)) + tail;
        FilterNew(a, existing) + (FilterNew(init, existing) + tail);
        FilterNew(a, existing) + FilterNew(b, existing);
      }
    }
  }

  /** What `_create_embeddings` keeps: each item whose text the embedder turns
      into a vector, paired with that vector, in order. */
  function Embedded<T(!new)>(items: seq<T>, text: T -> string, embed: string -> Option<Embedding>): (r: seq<(T, Embedding)>)
    ensures |r| <= |items|
    ensures forall p {:trigger p in r} {:trigger p.0 in items} :: p in r <==> p.0 in items && embed(text(p.0)) == Some(p.1)
    decreases |items|
  {
    if items == [] then []
    else
      var last := items[|items| - 1];
      Embedded(items[..|items| - 1], text, embed) +
        (match embed(text(last)) case Some(e) => [(last, e)] case None => [])
  }

  /** `_create_embeddings` keeps order and multiplicity: the pairs of two
      lists joined are those of each, joined, item by item. */
  lemma {:induction false} EmbeddedAppend<T(!new)>(a: seq<T>, b: seq<T>, text: T -> string, embed: string -> Option<Embedding>)
    ensures Embedded(a + b, text, embed) == Embedded(a, text, embed) + Embedded(b, text, embed)
    decreases |b|
  {
    if b == [] {
      assert a + b == a;
    } else {
      var init, last := b[..|b| - 1], b[|b| - 1];
      var ab := a + b;
      var tail := match embed(text(last)) case Some(e) => [(last, e)] case None => [];
      assert ab[..|ab| - 1] == a + init && ab[|ab| - 1] == last;
      assert Embedded(ab, text, embed) == Embedded(a + init, text, embed) + tail;
      assert Embedded(b, text, embed) == Embedded(init, text, embed) + tail;
      EmbeddedAppend(a, init, text, embed);
    }
  }

  /** When the embedder never fails, every item is kept, in order. */
  lemma {:induction false} EmbeddedTotal<T(!new)>(items: seq<T>, text: T -> string, embed: string -> Option<Embedding>)
    requires forall i :: 0 <= i < |items| ==> embed(text(items[i])).Some?
    ensures |Embedded(items, text, embed)| == |items|
    ensures forall i :: 0 <= i < |items| ==> Embedded(items, text, embed)[i].0 == items[i]
    decreases |items|
  {
    if items != [] {
      var init, last := items[..|items| - 1], items[|items| - 1];
      assert forall i :: 0 <= i < |init| ==> init[i] == items[i];
      EmbeddedTotal(init, text, embed);
      var e := embed(text(last)).value;
      var r0, r := Embedded(init, text, embed), Embedded(items, text, embed);
      assert r == r0 + [(last, e)];
      forall i | 0 <= i < |items|
        ensures r[i].0 == items[i]
      {
        if i < |init| {
          assert r[i] == r0[i];
        }
      }
    }
  }

  /** The records of `(record, embedding)` pairs, as the publisher takes them. */
  function WelfareDtos(data: seq<(WelfareService, Embedding)>): (r: seq<Dto>)
    ensures |r| == |data| && forall i :: 0 <= i < |data| ==> r[i] == Welfare(data[i].0)
  {
    seq(|data|, i requires 0 <= i < |data| => Welfare(data[i].0))
  }

  /** Rows this processor stored: each was published and carries the
      embedding of its record's text. */
  ghost predicate Delivered(rows: seq<W.WelfareRow>, requests: seq<seq<Entry>>, embed: string -> Option<Embedding>) {
    forall r :: r in rows ==> Published(requests, r.service) && embed(EmbeddingText(r.service)) == Some(r.embedding)
  }

  lemma DeliveredGrows(rows: seq<W.WelfareRow>, requests: seq<seq<Entry>>, more: seq<seq<Entry>>, embed: string -> Option<Embedding>)
    requires Delivered(rows, requests, embed)
    ensures Delivered(rows, requests + more, embed)
  {
    forall r | r in rows
      ensures Published(requests + more, r.service)
    {
      PublishedGrows(requests, more, r.service);
    }
  }

  /** A stored batch is delivered once its records are published and its
      embeddings are those of their texts. */
  lemma BatchDelivered(data: seq<(WelfareService, Embedding)>, requests: seq<seq<Entry>>, embed: string -> Option<Embedding>)
    requires forall i :: 0 <= i < |data| ==> Published(requests, data[i].0)
    requires forall i :: 0 <= i < |data| ==> embed(EmbeddingText(data[i].0)) == Some(data[i].1)
    ensures Delivered(W.RowsOf(data), requests, embed)
  {
    var rows := W.RowsOf(data);
    forall r | r in rows
      ensures Published(requests, r.service) && embed(EmbeddingText(r.service)) == Some(r.embedding)
    {
      var i :| 0 <= i < |rows| && rows[i] == r;
    }
  }

  /** The committed rows `c1` extend `c0`, and every row added was delivered. */
  ghost predicate Grown(c0: seq<W.WelfareRow>, c1: seq<W.WelfareRow>, requests: seq<seq<Entry>>, embed: string -> Option<Embedding>) {
    c0 <= c1 && Delivered(c1[|c0|..], requests, embed)
  }

  lemma GrownRefl(c: seq<W.WelfareRow>, requests: seq<seq<Entry>>, embed: string -> Option<Embedding>)
    ensures Grown(c, c, requests, embed)
  {
    assert c[|c|..] == [];
  }

  lemma GrownTrans(c0: seq<W.WelfareRow>, c1: seq<W.WelfareRow>, c2: seq<W.WelfareRow>,
                   q1: seq<seq<Entry>>, q2: seq<seq<Entry>>, embed: string -> Option<Embedding>)
    requires Grown(c0, c1, q1, embed) && Grown(c1, c2, q2, embed) && q1 <= q2
    ensures Grown(c0, c2, q2, embed)
  {
    assert q2 == q1 + q2[|q1|..];
    DeliveredGrows(c1[|c0|..], q1, q2[|q1|..], embed);
    assert c2[|c0|..] == c1[|c0|..] + c2[|c1|..];
  }

  /** No two welfare records of a page share a `service_id`. */
  predicate DistinctIds(dtos: seq<Dto>) {
    forall i, j :: 0 <= i < j < |dtos| && dtos[i].Welfare? && dtos[j].Welfare? ==>
      dtos[i].service.serviceId != dtos[j].service.serviceId
  }

  /** Every page holds welfare records only. */
  predicate AllWelfare(pages: seq<seq<Dto>>) {
    forall k, i :: 0 <= k < |pages| && 0 <= i < |pages[k]| ==> pages[k][i].Welfare?
  }

  /** What a welfare page hands to the store when its lookup succeeds on
      `table`: the records whose ids the table lacks, embedded. */
  function PageData(dtos: seq<Dto>, table: seq<W.WelfareRow>, embed: string -> Option<Embedding>): seq<(WelfareService, Embedding)>
    requires forall i :: 0 <= i < |dtos| ==> dtos[i].Welfare?
  {
    Embedded(FilterNew(Services(dtos), W.ExistingIds(IdsFromApi(dtos), table)), EmbeddingText, embed)
  }

  /** The rows a welfare page commits on `table` when nothing fails: its
      new data, if the store takes the batch; none if the insert is refused
      (a repeated id), which is rolled back. */
  function PageRows(dtos: seq<Dto>, table: seq<W.WelfareRow>, embed: string -> Option<Embedding>): seq<W.WelfareRow>
    requires forall i :: 0 <= i < |dtos| ==> dtos[i].Welfare?
  {
    var data := PageData(dtos, table, embed);
    if DistinctPairs(data) then W.RowsOf(data) else []
  }

  /** The rows a run commits over its first `n` pages when nothing fails:
      each page is looked up against the table the earlier pages left. */
  ghost function RunRows(pages: seq<seq<Dto>>, n: nat, table: seq<W.WelfareRow>, embed: string -> Option<Embedding>): seq<W.WelfareRow>
    requires AllWelfare(pages)
    decreases n, 0
  {
    if n == 0 then [] else RunRows(pages, n - 1, table, embed) + RowsOfPage(pages, n - 1, table, embed)
  }

  /** `committed` is `table` followed by the rows of a run's first `n` pages. */
  ghost predicate CommittedAfter(committed: seq<W.WelfareRow>, pages: seq<seq<Dto>>, n: nat, table: seq<W.WelfareRow>,
                                 embed: string -> Option<Embedding>)
    requires AllWelfare(pages)
  {
    committed == table + RunRows(pages, n, table, embed)
  }

  /** The rows page `k` of a run commits: its rows looked up against the
      table the earlier pages left. */
  ghost function RowsOfPage(pages: seq<seq<Dto>>, k: nat, table: seq<W.WelfareRow>, embed: string -> Option<Embedding>): seq<W.WelfareRow>
    requires AllWelfare(pages)
    decreases k, 1
  {
    PageRows(PageAt(pages, k), table + RunRows(pages, k, table, embed), embed)
  }

  /** No two records of a list share a `service_id`. */
  predicate Distinct(services: seq<WelfareService>) {
    forall i, j :: 0 <= i < j < |services| ==> services[i].serviceId != services[j].serviceId
  }

  /** No two pairs of a batch share a `service_id`. */
  predicate DistinctPairs(data: seq<(WelfareService, Embedding)>) {
    forall i, j :: 0 <= i < j < |data| ==> data[i].0.serviceId != data[j].0.serviceId
  }

  /** A pair whose id is new to a distinct batch keeps it distinct. */
  lemma DistinctPairsSnoc(data: seq<(WelfareService, Embedding)>, p: (WelfareService, Embedding))
    requires DistinctPairs(data)
    requires forall i :: 0 <= i < |data| ==> data[i].0.serviceId != p.0.serviceId
    ensures DistinctPairs(data + [p])
  {
  }

  /** A record whose id is new to a distinct list keeps it distinct. */
  lemma DistinctSnoc(services: seq<WelfareService>, x: WelfareService)
    requires Distinct(services)
    requires forall i :: 0 <= i < |services| ==> services[i].serviceId != x.serviceId
    ensures Distinct(services + [x])
  {
  }

  /** Dropping the last record of a distinct list leaves it distinct, and
      no record left carries the last one's id. */
  lemma DistinctInit(services: seq<WelfareService>)
    requires Distinct(services) && services != []
    ensures Distinct(services[..|services| - 1])
    ensures forall i :: 0 <= i < |services| - 1 ==> services[i].serviceId != services[|services| - 1].serviceId
  {
  }

  lemma Assoc<T>(a: seq<T>, b: seq<T>, c: seq<T>)
    ensures a + (b + c) == (a + b) + c
  {
  }

  /** The table after `n` pages is the table after `n - 1` pages and the
      rows of page `n - 1`, looked up against it. */
  lemma RunRowsNext(clean: bool, pages: seq<seq<Dto>>, n: nat, table: seq<W.WelfareRow>, before: seq<W.WelfareRow>,
                    after: seq<W.WelfareRow>, embed: string -> Option<Embedding>)
    requires AllWelfare(pages) && n > 0
    requires clean ==> before == table + RunRows(pages, n - 1, table, embed)
    requires clean ==> after == before + PageRows(PageAt(pages, n - 1), before, embed)
    ensures clean ==> after == table + RunRows(pages, n, table, embed)
  {
    var rest := RunRows(pages, n - 1, table, embed);
    var rows := RowsOfPage(pages, n - 1, table, embed);
    assert rows == PageRows(PageAt(pages, n - 1), table + rest, embed);
    assert RunRows(pages, n, table, embed) == rest + rows;
    Assoc(table, rest, rows);
  }

  /** The new records of a page with distinct ids keep them distinct. */
  lemma {:induction false} FilterNewDistinct(services: seq<WelfareService>, existing: set<string>)
    requires Distinct(services)
    ensures Distinct(FilterNew(services, existing))
    decreases |services|
  {
    if services != [] {
      var init, last := services[..|services| - 1], services[|services| - 1];
      assert Distinct(init);
      FilterNewDistinct(init, existing);
      var r0 := FilterNew(init, existing);
      forall i | 0 <= i < |r0|
        ensures r0[i].serviceId != last.serviceId
      {
        assert r0[i] in r0;
        var k :| 0 <= k < |init| && init[k] == r0[i];
        assert services[k] == init[k];
      }
      if last.serviceId !in existing {
        DistinctSnoc(r0, last);
      }
    }
  }

  /** Every pair `_create_embeddings` keeps holds an item it was given. */
  lemma EmbeddedKeyIn<T(!new)>(items: seq<T>, text: T -> string, embed: string -> Option<Embedding>, i: nat)
    requires i < |Embedded(items, text, embed)|
    ensures Embedded(items, text, embed)[i].0 in items
  {
    var r := Embedded(items, text, embed);
    assert r[i] in r;
  }

  /** Every kept pair carries the vector the embedder gave its item. */
  lemma EmbeddedVectors<T(!new)>(items: seq<T>, text: T -> string, embed: string -> Option<Embedding>)
    ensures var r := Embedded(items, text, embed);
      forall i :: 0 <= i < |r| ==> embed(text(r[i].0)) == Some(r[i].1)
  {
    var r := Embedded(items, text, embed);
    forall i | 0 <= i < |r|
      ensures embed(text(r[i].0)) == Some(r[i].1)
    {
      assert r[i] in r;
    }
  }

  /** Embedding keeps distinct ids distinct. */
  lemma {:induction false} EmbeddedDistinct(items: seq<WelfareService>, text: WelfareService -> string, embed: string -> Option<Embedding>)
    requires Distinct(items)
    ensures DistinctPairs(Embedded(items, text, embed))
    decreases |items|
  {
    if items != [] {
      var init, last := items[..|items| - 1], items[|items| - 1];
      DistinctInit(items);
      EmbeddedDistinct(init, text, embed);
      EmbeddedOthers(init, last, text, embed);
      var r0 := Embedded(init, text, embed);
      var tail := match embed(text(last)) case Some(e) => [(last, e)] case None => [];
      assert Embedded(items, text, embed) == r0 + tail;
      if tail != [] {
        assert tail == [tail[0]] && tail[0].0 == last;
        assert forall i :: 0 <= i < |r0| ==> r0[i] in r0;
        DistinctPairsSnoc(r0, tail[0]);
      }
    }
  }

  /** A record whose id no item carries has an id no kept pair carries. */
  lemma EmbeddedOthers(items: seq<WelfareService>, x: WelfareService, text: WelfareService -> string, embed: string -> Option<Embedding>)
    requires forall i :: 0 <= i < |items| ==> items[i].serviceId != x.serviceId
    ensures forall p :: p in Embedded(items, text, embed) ==> p.0.serviceId != x.serviceId
  {
    forall p | p in Embedded(items, text, embed)
      ensures p.0.serviceId != x.serviceId
    {
      assert p.0 in items;
    }
  }

  /** Every record the lookup keeps has an id the table lacks. */
  lemma FilterNewFresh(dtos: seq<Dto>, table: seq<W.WelfareRow>, x: WelfareService)
    requires forall i :: 0 <= i < |dtos| ==> dtos[i].Welfare?
    requires x in FilterNew(Services(dtos), W.ExistingIds(IdsFromApi(dtos), table))
    ensures x.serviceId !in W.Ids(table)
  {
    var services := Services(dtos);
    var ids := IdsFromApi(dtos);
    var k :| 0 <= k < |services| && services[k] == x;
    assert ids[k] == x.serviceId;
    W.ExistingIdsExact(ids, table, x.serviceId);
  }

  /** No record a page hands to the store has an id the table holds. */
  lemma PageDataFresh(dtos: seq<Dto>, table: seq<W.WelfareRow>, embed: string -> Option<Embedding>)
    requires forall i :: 0 <= i < |dtos| ==> dtos[i].Welfare?
    ensures var data := PageData(dtos, table, embed);
      forall i :: 0 <= i < |data| ==> data[i].0.serviceId !in W.Ids(table)
  {
    var kept := FilterNew(Services(dtos), W.ExistingIds(IdsFromApi(dtos), table));
    var data := PageData(dtos, table, embed);
    forall i | 0 <= i < |data|
      ensures data[i].0.serviceId !in W.Ids(table)
    {
      EmbeddedKeyIn(kept, EmbeddingText, embed, i);
      FilterNewFresh(dtos, table, data[i].0);
    }
  }

  /** On a keyed table the store takes a page's batch exactly when no id
      repeats in it: the lookup already removed every stored id. */
  lemma PageAcceptsIff(dtos: seq<Dto>, table: seq<W.WelfareRow>, embed: string -> Option<Embedding>)
    requires forall i :: 0 <= i < |dtos| ==> dtos[i].Welfare?
    requires W.UniqueIds(table)
    ensures W.Accepts(table, PageData(dtos, table, embed)) <==> DistinctPairs(PageData(dtos, table, embed))
  {
    PageDataFresh(dtos, table, embed);
    W.AcceptsIff(table, PageData(dtos, table, embed));
  }

  /** What a page commits, in the store's terms: its batch's rows when the
      store takes the batch, nothing when it refuses it. */
  lemma PageRowsCases(dtos: seq<Dto>, table: seq<W.WelfareRow>, embed: string -> Option<Embedding>)
    requires forall i :: 0 <= i < |dtos| ==> dtos[i].Welfare?
    requires W.UniqueIds(table)
    ensures W.Accepts(table, PageData(dtos, table, embed)) ==>
      PageRows(dtos, table, embed) == W.RowsOf(PageData(dtos, table, embed))
    ensures !W.Accepts(table, PageData(dtos, table, embed)) ==> PageRows(dtos, table, embed) == []
  {
    PageAcceptsIff(dtos, table, embed);
  }

  /** A page whose records have distinct ids hands the store a batch with
      distinct ids, so all of its new data is committed. */
  lemma PageDataDistinct(dtos: seq<Dto>, table: seq<W.WelfareRow>, embed: string -> Option<Embedding>)
    requires forall i :: 0 <= i < |dtos| ==> dtos[i].Welfare?
    requires DistinctIds(dtos)
    ensures DistinctPairs(PageData(dtos, table, embed))
    ensures PageRows(dtos, table, embed) == W.RowsOf(PageData(dtos, table, embed))
  {
    var services := Services(dtos);
    forall i, j | 0 <= i < j < |services|
      ensures services[i].serviceId != services[j].serviceId
    {
      assert services[i] == dtos[i].service && services[j] == dtos[j].service;
    }
    assert Distinct(services);
    FilterNewDistinct(services, W.ExistingIds(IdsFromApi(dtos), table));
    EmbeddedDistinct(FilterNew(services, W.ExistingIds(IdsFromApi(dtos), table)), EmbeddingText, embed);
  }

  class IngestProcessor {
    const repo: Repo
    /** The embedding service: the vector of a text, or `None` where the
      Bedrock call raises. */
    const embed: string -> Option<Embedding>
    const publisher: NotificationService
    const startPage: int
    /** Read from the configuration and never used by the loop. */
    const pageLimit: int

    /** `__init__`: `start_page` defaults to 1 and `page_limit` to 5. */
    constructor (repo: Repo, embed: string -> Option<Embedding>, publisher: NotificationService, pageConfig: map<string, int>)
      ensures this.repo == repo && this.embed == embed && this.publisher == publisher
      ensures startPage == (if "start_page" in pageConfig then pageConfig["start_page"] else 1)
      ensures pageLimit == (if "page_limit" in pageConfig then pageConfig["page_limit"] else 5)
    {
      this.repo := repo;
      this.embed := embed;
      this.publisher := publisher;
      startPage := if "start_page" in pageConfig then pageConfig["start_page"] else 1;
      pageLimit := if "page_limit" in pageConfig then pageConfig["page_limit"] else 5;
    }

    /** The session the store works in. */
    function Conns(): set<object> {
      match repo
      case WelfareRepo(w) => {w.conn}
      case EmploymentRepo(e) => {e.conn}
    }

    /** `_create_embeddings`: each item whose embedding succeeds, with it, in
      order; a failed item is logged and skipped. */
    method CreateEmbeddings<T(!new)>(items: seq<T>, text: T -> string) returns (data: seq<(T, Embedding)>)
      ensures data == Embedded(items, text, embed)
    {
      data := [];
      var i := 0;
      while i < |items|
        invariant 0 <= i <= |items|
        invariant data == Embedded(items[..i], text, embed)
      {
        assert items[..i + 1][..i] == items[..i];
        var e := embed(text(items[i]));
        if e.Some? {
          data := data + [(items[i], e.value)];
        }
        i := i + 1;
      }
      assert items[..i] == items;
    }

    // -------------------------------------------------------------------------
    // The welfare path
    // -------------------------------------------------------------------------

    /** `_save_and_publish` with the welfare store, which returns a count:
      when rows went in, their records are published; a publishing failure
      is caught and reported as 0, leaving the rollback to the caller. */
    method SaveAndPublishWelfare(data: seq<(WelfareService, Embedding)>) returns (count: nat)
      requires repo.WelfareRepo? && repo.w.Valid() && data != []
      modifies repo.w.conn, publisher
      ensures repo.w.Valid()
      ensures repo.w.conn.committed == old(repo.w.conn.committed)
      ensures old(publisher.requests) <= publisher.requests
      ensures count == 0 || count == |data|
      ensures count == |data| ==> repo.w.conn.table == old(repo.w.conn.table) + W.RowsOf(data)
      ensures count == |data| ==> forall i :: 0 <= i < |data| ==> Published(publisher.requests, data[i].0)
      ensures !(repo.w.conn.FaultAt(old(repo.w.conn.stmts)) == None && W.Accepts(old(repo.w.conn.table), data)) ==>
        count == 0 && publisher.requests == old(publisher.requests) && repo.w.conn.table == old(repo.w.conn.committed)
      ensures repo.w.conn.FaultAt(old(repo.w.conn.stmts)) == None && W.Accepts(old(repo.w.conn.table), data) &&
              publisher.sendFaults == map[] ==>
        count == |data|
      ensures RunOf(Chunks(WelfareDtos(data)), publisher.sendFaults, |old(publisher.requests)|).raised ==> count == 0
    {
      var w := repo.w;
      var inserted := w.InsertServicesBatch(data);
      if inserted > 0 {
        var dtos := WelfareDtos(data);
        ghost var before := publisher.requests;
        var raised := publisher.PublishNewServices(dtos);
        assert publisher.requests == before + RunOf(Chunks(dtos), publisher.sendFaults, |before|).requests;
        if publisher.sendFaults == map[] {
          PublishRecords(dtos, publisher.sendFaults, |before|);
        }
        if raised {
          count := 0;
        } else {
          PublishedAll(dtos, publisher.sendFaults, |before|, before);
          count := inserted;
        }
      } else {
        count := 0;
      }
    }

    /** The first half of a welfare page: look up the page's ids (a driver
      error reads as "none known"), keep the records not yet stored, and
      embed them. Only an unexpected failure of the query escapes. */
    method NewWelfareData(dtos: seq<Dto>) returns (o: Outcome<seq<(WelfareService, Embedding)>>)
      requires repo.WelfareRepo? && dtos != [] && forall i :: 0 <= i < |dtos| ==> dtos[i].Welfare?
      requires repo.w.Valid() && repo.w.conn.table == repo.w.conn.committed
      modifies repo.w.conn
      ensures repo.w.Valid() && repo.w.conn.table == repo.w.conn.committed
      ensures repo.w.conn.committed == old(repo.w.conn.committed)
      ensures repo.w.conn.FaultAt(old(repo.w.conn.stmts)) == None ==>
        o == Returned(Embedded(FilterNew(Services(dtos), W.ExistingIds(IdsFromApi(dtos), old(repo.w.conn.table))), EmbeddingText, embed))
      ensures repo.w.conn.FaultAt(old(repo.w.conn.stmts)) == Some(DbError) ==>
        o == Returned(Embedded(FilterNew(Services(dtos), {}), EmbeddingText, embed))
      ensures repo.w.conn.FaultAt(old(repo.w.conn.stmts)) == Some(Unexpected) ==> o == Raised
      ensures o.Returned? ==> forall i :: 0 <= i < |o.value| ==> embed(EmbeddingText(o.value[i].0)) == Some(o.value[i].1)
    {
      var ids := IdsFromApi(dtos);
      var existing := repo.w.GetExistingIds(ids);
      if existing.Raised? {
        return Raised;
      }
      var newServices := FilterNew(Services(dtos), existing.value);
      if newServices == [] {
        return Returned([]);
      }
      var data := CreateEmbeddings(newServices, EmbeddingText);
      EmbeddedVectors(newServices, EmbeddingText, embed);
      return Returned(data);
    }

    /** The second half of a welfare page: store and publish the batch,
      then commit when rows went in, or roll back. A commit failure is
      rolled back; a driver error in the commit is swallowed by the
      repository, so its rows still count. */
    method StoreWelfarePage(data: seq<(WelfareService, Embedding)>) returns (count: nat)
      requires repo.WelfareRepo? && data != []
      requires repo.w.Valid() && repo.w.conn.table == repo.w.conn.committed
      requires forall i :: 0 <= i < |data| ==> embed(EmbeddingText(data[i].0)) == Some(data[i].1)
      modifies repo.w.conn, publisher
      ensures repo.w.Valid() && repo.w.conn.table == repo.w.conn.committed
      ensures old(publisher.requests) <= publisher.requests
      ensures Grown(old(repo.w.conn.committed), repo.w.conn.committed, publisher.requests, embed)
      ensures |repo.w.conn.committed| - |old(repo.w.conn.committed)| <= count
      ensures repo.w.conn.faults == map[] ==> |repo.w.conn.committed| - |old(repo.w.conn.committed)| == count
      ensures repo.w.conn.faults == map[] && publisher.sendFaults == map[] && W.Accepts(old(repo.w.conn.table), data) ==>
        count == |data| && repo.w.conn.committed == old(repo.w.conn.committed) + W.RowsOf(data)
      ensures !W.Accepts(old(repo.w.conn.table), data) ==>
        count == 0 && repo.w.conn.committed == old(repo.w.conn.committed) && publisher.requests == old(publisher.requests)
      ensures RunOf(Chunks(WelfareDtos(data)), publisher.sendFaults, |old(publisher.requests)|).raised ==>
        count == 0 && repo.w.conn.committed == old(repo.w.conn.committed)
    {
      var w := repo.w;
      ghost var c0 := w.conn.committed;
      count := SaveAndPublishWelfare(data);
      if count > 0 {
        var raised := w.conn.Commit();
        if raised {
          w.conn.Rollback();
          count := 0;
        } else if w.conn.committed != c0 {
          assert w.conn.committed[|c0|..] == W.RowsOf(data);
          BatchDelivered(data, publisher.requests, embed);
        }
      } else {
        w.conn.Rollback();
      }
      if w.conn.committed == c0 {
        GrownRefl(c0, publisher.requests, embed);
      }
    }

    /** One non-empty welfare page (the loop body after the fetch). */
    method ProcessWelfarePage(dtos: seq<Dto>) returns (r: Outcome<nat>)
      requires repo.WelfareRepo? && dtos != [] && forall i :: 0 <= i < |dtos| ==> dtos[i].Welfare?
      requires repo.w.Valid() && repo.w.conn.table == repo.w.conn.committed
      modifies repo.w.conn, publisher
      ensures repo.w.Valid() && repo.w.conn.table == repo.w.conn.committed
      ensures old(publisher.requests) <= publisher.requests
      ensures Grown(old(repo.w.conn.committed), repo.w.conn.committed, publisher.requests, embed)
      ensures r.Raised? ==> repo.w.conn.committed == old(repo.w.conn.committed)
      ensures r.Returned? ==> |repo.w.conn.committed| - |old(repo.w.conn.committed)| <= r.value
      ensures r.Returned? && repo.w.conn.faults == map[] ==>
        |repo.w.conn.committed| - |old(repo.w.conn.committed)| == r.value
      ensures repo.w.conn.faults == map[] ==> r.Returned?
      ensures repo.w.conn.faults == map[] && publisher.sendFaults == map[] ==>
        r == Returned(|PageRows(dtos, old(repo.w.conn.committed), embed)|) &&
        repo.w.conn.committed == old(repo.w.conn.committed) + PageRows(dtos, old(repo.w.conn.committed), embed)
    {
      GrownRefl(repo.w.conn.committed, publisher.requests, embed);
      ghost var c0 := repo.w.conn.committed;
      ghost var clean := repo.w.conn.faults == map[];
      var o := NewWelfareData(dtos);
      if o.Raised? {
        return Raised;
      }
      var data := o.value;
      assert clean ==> data == PageData(dtos, c0, embed);
      if data == [] {
        assert clean ==> PageRows(dtos, c0, embed) == [];
        return Returned(0);
      }
      var count := StoreWelfarePage(data);
      if clean {
        assert publisher.sendFaults == map[] ==>
          repo.w.conn.committed == c0 + PageRows(dtos, c0, embed) && count == |PageRows(dtos, c0, embed)| by {
          PageRowsCases(dtos, c0, embed);
        }
      }
      return Returned(count);
    }

    // -------------------------------------------------------------------------
    // The employment path
    // -------------------------------------------------------------------------

    /** `_save_and_publish` with the employment store, which returns the new
      postings: they are handed to the publisher, which cannot build a
      message for a posting and raises, so the page always reports 0. */
    method SaveAndPublishEmployment(data: seq<(JobOpening, Embedding)>) returns (count: nat)
      requires repo.EmploymentRepo?
      modifies repo.e.conn, publisher
      ensures count == 0
      ensures repo.e.conn.committed == old(repo.e.conn.committed)
      ensures publisher.requests == old(publisher.requests)
    {
      var inserted := repo.e.InsertServicesBatch(data);
      match inserted
      case Raised =>
        count := 0;
      case Returned(jobs) =>
        if |jobs| > 0 {
          var dtos := seq(|jobs|, i requires 0 <= i < |jobs| => Job(jobs[i]));
          RunOnPostings(dtos, publisher.sendFaults, |publisher.requests|);
          var raised := publisher.PublishNewServices(dtos);
          // A posting has no `service_id`, so the publisher always raises
          // here and the count of line 167 is never returned.
          assert raised;
          count := 0;
        } else {
          count := 0;
        }
    }

    /** One non-empty employment page. No posting has a `service_id`, so no
      id is looked up and every posting goes on to be embedded; the save
      step reports 0, so a page that reaches it is always rolled back. */
    method ProcessEmploymentPage(dtos: seq<Dto>) returns (count: nat)
      requires repo.EmploymentRepo? && dtos != [] && forall i :: 0 <= i < |dtos| ==> dtos[i].Job?
      modifies repo.e.conn, publisher
      ensures count == 0
      ensures repo.e.conn.committed == old(repo.e.conn.committed)
      ensures publisher.requests == old(publisher.requests)
    {
      var ids := IdsFromApi(dtos);
      assert ids == [];
      var data := CreateEmbeddings(Postings(dtos), JobEmbeddingText);
      if data == [] {
        return 0;
      }
      count := SaveAndPublishEmployment(data);
      repo.e.conn.Rollback();
    }

    // -------------------------------------------------------------------------
    // The run
    // -------------------------------------------------------------------------

    /** Page `k` of a run (the loop body), with what the loop keeps: the
      committed rows grew only by delivered rows, by at most the page's
      count, by exactly it when nothing faults, and, when neither the
      session nor the queue fails, to the rows of the first `k + 1` pages. */
    method WelfarePageStep(pages: seq<seq<Dto>>, k: nat, ghost n: nat, ghost c0: seq<W.WelfareRow>, ghost clean: bool)
      returns (r: Outcome<nat>)
      requires repo.WelfareRepo? && AllWelfare(pages) && k < FirstEmpty(pages) && n == k + 1
      requires repo.w.Valid() && repo.w.conn.table == repo.w.conn.committed
      requires Grown(c0, repo.w.conn.committed, publisher.requests, embed)
      requires clean == (repo.w.conn.faults == map[] && publisher.sendFaults == map[])
      requires clean ==> CommittedAfter(repo.w.conn.committed, pages, k, c0, embed)
      modifies repo.w.conn, publisher
      ensures repo.w.Valid() && repo.w.conn.table == repo.w.conn.committed
      ensures old(publisher.requests) <= publisher.requests
      ensures Grown(c0, repo.w.conn.committed, publisher.requests, embed)
      ensures r.Raised? ==> repo.w.conn.faults != map[]
      ensures r.Returned? ==> |repo.w.conn.committed| - |old(repo.w.conn.committed)| <= r.value
      ensures r.Returned? && repo.w.conn.faults == map[] ==>
        |repo.w.conn.committed| - |old(repo.w.conn.committed)| == r.value
      ensures clean ==> CommittedAfter(repo.w.conn.committed, pages, n, c0, embed)
    {
      var w := repo.w;
      var dtos := PageAt(pages, k);
      assert dtos == pages[k] && dtos != [];
      ghost var c1, q1 := w.conn.committed, publisher.requests;
      r := ProcessWelfarePage(dtos);
      GrownTrans(c0, c1, w.conn.committed, q1, publisher.requests, embed);
      if r.Returned? {
        RunRowsNext(clean, pages, n, c0, c1, w.conn.committed, embed);
      }
    }

    /** The page loop with the welfare store: pages from `start_page` on
      until the first empty one; an escaping error ends the run. Every row
      it commits was published with its record's embedding, and the total
      it reports bounds what was committed (exactly, when nothing fails). */
    method RunWelfarePages(pages: seq<seq<Dto>>) returns (r: Outcome<nat>, ghost requested: seq<int>)
      requires repo.WelfareRepo? && Fits(repo, pages)
      requires repo.w.Valid() && repo.w.conn.table == repo.w.conn.committed
      modifies repo.w.conn, publisher
      ensures r.Returned? ==>
        |requested| == FirstEmpty(pages) + 1 && forall k :: 0 <= k < |requested| ==> requested[k] == startPage + k
      ensures repo.w.Valid() && repo.w.conn.table == repo.w.conn.committed
      ensures old(publisher.requests) <= publisher.requests
      ensures Grown(old(repo.w.conn.committed), repo.w.conn.committed, publisher.requests, embed)
      ensures r.Returned? ==> |repo.w.conn.committed| - |old(repo.w.conn.committed)| <= r.value
      ensures r.Returned? && repo.w.conn.faults == map[] ==>
        |repo.w.conn.committed| - |old(repo.w.conn.committed)| == r.value
      ensures repo.w.conn.faults == map[] ==> r.Returned?
      ensures repo.w.conn.faults == map[] && publisher.sendFaults == map[] ==>
        CommittedAfter(repo.w.conn.committed, pages, FirstEmpty(pages), old(repo.w.conn.committed), embed)
    {
      var w := repo.w;
      ghost var c0 := w.conn.committed;
      ghost var q0 := publisher.requests;
      ghost var clean := w.conn.faults == map[] && publisher.sendFaults == map[];
      assert AllWelfare(pages);
      GrownRefl(c0, q0, embed);
      requested := [];
      var total: nat := 0;
      var page := startPage;
      assert CommittedAfter(c0, pages, 0, c0, embed);
      while true
        invariant page == startPage + |requested|
        invariant 0 <= |requested| <= FirstEmpty(pages)
        invariant forall k :: 0 <= k < |requested| ==> requested[k] == startPage + k
        invariant w.Valid() && w.conn.table == w.conn.committed
        invariant q0 <= publisher.requests
        invariant Grown(c0, w.conn.committed, publisher.requests, embed)
        invariant |w.conn.committed| - |c0| <= total
        invariant w.conn.faults == map[] ==> |w.conn.committed| - |c0| == total
        invariant clean ==> CommittedAfter(w.conn.committed, pages, |requested|, c0, embed)
        decreases FirstEmpty(pages) - |requested|
      {
        requested := requested + [page];
        var dtos := PageAt(pages, page - startPage);
        assert dtos == PageAt(pages, |requested| - 1);
        assert dtos == [] <==> |requested| - 1 == FirstEmpty(pages) by {
          PageAtFirstEmpty(pages, |requested| - 1);
        }
        if dtos == [] {
          break;
        }
        var o := WelfarePageStep(pages, page - startPage, |requested|, c0, clean);
        if o.Raised? {
          return Raised, requested;
        }
        total := total + o.value;
        page := page + 1;
      }
      return Returned(total), requested;
    }

    /** The page loop with the employment store: it first deletes expired
      postings (an escaping error there is rolled back and ends the run
      with 0), then requests pages until the first empty one. Every page
      is rolled back, so nothing is committed and nothing is published. */
    method RunEmploymentPages(pages: seq<seq<Dto>>, today: Date) returns (r: Outcome<nat>, ghost requested: seq<int>)
      requires repo.EmploymentRepo? && Fits(repo, pages)
      modifies repo.e.conn, publisher
      ensures requested != [] ==>
        |requested| == FirstEmpty(pages) + 1 && forall k :: 0 <= k < |requested| ==> requested[k] == startPage + k
      ensures r == Returned(0)
      ensures repo.e.conn.committed == old(repo.e.conn.committed)
      ensures publisher.requests == old(publisher.requests)
    {
      var e := repo.e;
      requested := [];
      var deleted := e.DeleteExpiredJobs(today);
      if deleted.Raised? {
        e.conn.Rollback();
        return Returned(0), requested;
      }
      var page := startPage;
      while true
        invariant page == startPage + |requested|
        invariant 0 <= |requested| <= FirstEmpty(pages)
        invariant forall k :: 0 <= k < |requested| ==> requested[k] == startPage + k
        invariant e.conn.committed == old(e.conn.committed)
        invariant publisher.requests == old(publisher.requests)
        decreases FirstEmpty(pages) - |requested|
      {
        requested := requested + [page];
        var dtos := PageAt(pages, page - startPage);
        if dtos == [] {
          break;
        }
        assert forall i :: 0 <= i < |dtos| ==> dtos[i].Job?;
        var count := ProcessEmploymentPage(dtos);
        page := page + 1;
      }
      return Returned(0), requested;
    }

    /** `run_for_fetcher` over the pages a fetcher yields, on the day `today`:
      the page loop of the processor's store. `requested` lists the page
      numbers asked for. */
    method RunForFetcher(pages: seq<seq<Dto>>, today: Date) returns (r: Outcome<nat>, ghost requested: seq<int>)
      requires Fits(repo, pages)
      requires repo.WelfareRepo? ==> repo.w.Valid() && repo.w.conn.table == repo.w.conn.committed
      modifies Conns(), publisher
      ensures r.Returned? && requested != [] ==>
        |requested| == FirstEmpty(pages) + 1 && forall k :: 0 <= k < |requested| ==> requested[k] == startPage + k
      ensures old(publisher.requests) <= publisher.requests
      ensures repo.EmploymentRepo? ==>
        r == Returned(0) && repo.e.conn.committed == old(repo.e.conn.committed) &&
        publisher.requests == old(publisher.requests)
      ensures repo.WelfareRepo? ==>
        repo.w.Valid() && repo.w.conn.table == repo.w.conn.committed &&
        Grown(old(repo.w.conn.committed), repo.w.conn.committed, publisher.requests, embed)
      ensures repo.WelfareRepo? && r.Returned? ==>
        |repo.w.conn.committed| - |old(repo.w.conn.committed)| <= r.value
      ensures repo.WelfareRepo? && r.Returned? && repo.w.conn.faults == map[] ==>
        |repo.w.conn.committed| - |old(repo.w.conn.committed)| == r.value
      ensures repo.WelfareRepo? && repo.w.conn.faults == map[] ==> r.Returned?
      ensures repo.WelfareRepo? && repo.w.conn.faults == map[] && publisher.sendFaults == map[] ==>
        CommittedAfter(repo.w.conn.committed, pages, FirstEmpty(pages), old(repo.w.conn.committed), embed)
    {
      if repo.WelfareRepo? {
        r, requested := RunWelfarePages(pages);
      } else {
        r, requested := RunEmploymentPages(pages, today);
      }
    }
  }
}
