/** The legacy Lambda handler: a bounded page loop over the single-source
    adapter's raw items, which drops the ids already stored, embeds and
    inserts the rest one by one, and commits page by page. */
module LegacyHandler {
  import opened Wrappers
  import opened Text
  import opened Fetch
  import Dto
  import opened Connection
  import W = WelfareRepository
  import opened LegacyRepository
  import opened LegacyEmbedding
  import P = Processor

  /** `[s.get('servId') for s in services_from_api if s.get('servId')]`: the
      present, non-empty ids, in order. */
  function ServIds(items: seq<Item>): (r: seq<string>)
    ensures |r| == |WithServId(items)|
    ensures forall i :: 0 <= i < |r| ==> r[i] == WithServId(items)[i]["servId"]
  {
    var kept := WithServId(items);
    assert forall it :: it in kept ==> HasServId(it);
    seq(|kept|, i requires 0 <= i < |kept| => kept[i]["servId"])
  }

  /** The id list is empty exactly when no item carries an id, which is when
      the handler skips the page without a query. */
  lemma ServIdsEmpty(items: seq<Item>)
    ensures ServIds(items) == [] <==> forall it :: it in items ==> !HasServId(it)
  {
    var kept := WithServId(items);
    assert forall it :: it in kept ==> HasServId(it);
    assert kept != [] ==> kept[0] in kept;
  }

  /** `s.get('servId') not in existing_ids`: an item without an id is new. */
  predicate IsNew(item: Item, existing: set<string>) {
    Get(item, "servId").None? || Get(item, "servId").value !in existing
  }

  /** `[s for s in services_from_api if s.get('servId') not in existing_ids]`. */
  function NewItems(items: seq<Item>, existing: set<string>): (r: seq<Item>)
    ensures |r| <= |items|
    decreases |items|
  {
    if items == [] then []
    else
      var last := items[|items| - 1];
      NewItems(items[..|items| - 1], existing) + (if IsNew(last, existing) then [last] else [])
  }

  /** The selection keeps exactly the items whose id is missing or not
      among the existing ones. */
  lemma {:induction false} NewItemsMembers(items: seq<Item>, existing: set<string>)
    ensures forall it :: it in NewItems(items, existing) <==> it in items && IsNew(it, existing)
    decreases |items|
  {
    if items != [] {
      var init, last := items[..|items| - 1], items[|items| - 1];
      NewItemsMembers(init, existing);
      assert items == init + [last];
    }
  }

  /** The selection keeps page order and multiplicity: the new items of two
      lists joined are those of each, joined, item by item. */
  lemma {:induction false} NewItemsAppend(a: seq<Item>, b: seq<Item>, existing: set<string>)
    ensures NewItems(a + b, existing) == NewItems(a, existing) + NewItems(b, existing)
    decreases |b|
  {
    if b == [] {
      assert a + b == a;
    } else {
      var init, last := b[..|b| - 1], b[|b| - 1];
      var ab := a + b;
      assert ab[..|ab| - 1] == a + init && ab[|ab| - 1] == last;
      assert NewItems(ab, existing) == NewItems(a + init, existing) + (if IsNew(last, existing) then [last] else []);
      assert NewItems(b, existing) == NewItems(init, existing) + (if IsNew(last, existing) then [last] else []);
      NewItemsAppend(a, init, existing);
    }
  }

  /** With the lookup's answer on the current table, an item whose id is
      stored is never new, and every new item with a non-empty id carries
      one the table lacks. */
  lemma NewItemsUnstored(items: seq<Item>, table: seq<W.WelfareRow>)
    ensures forall it :: it in NewItems(items, W.ExistingIds(ServIds(items), table)) && HasServId(it) ==>
      it["servId"] !in W.Ids(table)
    ensures forall it :: it in items && HasServId(it) && it["servId"] in W.Ids(table) ==>
      it !in NewItems(items, W.ExistingIds(ServIds(items), table))
  {
    var ids := ServIds(items);
    var kept := WithServId(items);
    NewItemsMembers(items, W.ExistingIds(ids, table));
    forall it | it in items && HasServId(it)
      ensures it["servId"] in ids
    {
      assert it in kept;
      var i :| 0 <= i < |kept| && kept[i] == it;
      assert ids[i] == it["servId"];
    }
  }

  /** Inserting the pairs' rows one after the other, each is accepted: its
      item has an id that neither the table nor an earlier pair carries. */
  predicate Storable(pairs: seq<(Item, Dto.Embedding)>, table: seq<W.WelfareRow>)
    decreases |pairs|
  {
    pairs == [] ||
    (Storable(pairs[..|pairs| - 1], table) &&
     Insertable(pairs[|pairs| - 1].0, table + RowsOf(pairs[..|pairs| - 1])))
  }

  lemma RowsOfAppend(a: seq<(Item, Dto.Embedding)>, b: seq<(Item, Dto.Embedding)>)
    ensures RowsOf(a + b) == RowsOf(a) + RowsOf(b)
  {
    assert forall i :: 0 <= i < |a| ==> (a + b)[i] == a[i];
    assert forall i :: 0 <= i < |b| ==> (a + b)[|a| + i] == b[i];
  }

  /** Rows added after rows: a table grown by two batches holds the rows of
      the joined batch. */
  lemma RowsAfter(t: seq<W.WelfareRow>, a: seq<(Item, Dto.Embedding)>, b: seq<(Item, Dto.Embedding)>)
    ensures (t + RowsOf(a)) + RowsOf(b) == t + RowsOf(a + b)
  {
    RowsOfAppend(a, b);
    assert (t + RowsOf(a)) + RowsOf(b) == t + (RowsOf(a) + RowsOf(b));
  }

  /** `Embedded` over a prefix one item longer. */
  lemma EmbeddedStep(items: seq<Item>, i: nat, embed: string -> Option<Dto.Embedding>)
    requires i < |items|
    ensures P.Embedded(items[..i + 1], EmbeddingText, embed) ==
      P.Embedded(items[..i], EmbeddingText, embed) +
        (match embed(EmbeddingText(items[i])) case Some(e) => [(items[i], e)] case None => [])
  {
    assert items[..i + 1][..i] == items[..i];
  }

  lemma StorableStep(done: seq<(Item, Dto.Embedding)>, p: (Item, Dto.Embedding), table: seq<W.WelfareRow>)
    ensures Storable(done + [p], table) <==> Storable(done, table) && Insertable(p.0, table + RowsOf(done))
  {
    assert (done + [p])[..|done|] == done;
  }

  /** One insert of the loop, with what the transaction gained so far:
      `pending` grows by the pair exactly when its row went in, and a
      fault-free run over storable pairs keeps every pair. */
  method InsertPair(repo: LegacyRepository, item: Item, e: Dto.Embedding, ghost t0: seq<W.WelfareRow>,
                    ghost done: seq<(Item, Dto.Embedding)>, ghost pending: seq<(Item, Dto.Embedding)>)
    returns (ghost pending': seq<(Item, Dto.Embedding)>)
    requires repo.Valid()
    requires !repo.aborted ==> repo.conn.table == t0 + RowsOf(pending)
    requires repo.conn.faults == map[] && Storable(done, t0) ==> !repo.aborted && pending == done
    modifies repo, repo.conn
    ensures repo.Valid() && repo.conn.committed == old(repo.conn.committed) && repo.conn.closed == old(repo.conn.closed)
    ensures !repo.aborted ==> repo.conn.table == t0 + RowsOf(pending')
    ensures pending' == pending || pending' == pending + [(item, e)]
    ensures repo.conn.faults == map[] && Storable(done + [(item, e)], t0) ==>
      !repo.aborted && pending' == done + [(item, e)]
  {
    ghost var p := (item, e);
    ghost var table, wasAborted, f := repo.conn.table, repo.aborted, repo.conn.FaultAt(repo.conn.stmts);
    ghost var accepted := f == None && !wasAborted && Insertable(item, table);
    repo.InsertService(item, e);
    if accepted {
      RowsOfAppend(pending, [p]);
      assert RowsOf([p]) == [RowOf(p.0, p.1)];
      pending' := pending + [p];
    } else {
      pending' := pending;
    }
    if repo.conn.faults == map[] && Storable(done + [p], t0) {
      StorableStep(done, p, t0);
      assert accepted;
    }
  }

  /** What the insert loop keeps, after the pairs `done` have been embedded
      from a table that was `t0`: the keys hold, each embedded item was
      counted, the transaction (while it has not failed) gained exactly the
      rows of `pending`, a failed transaction has counted an item, and a
      fault-free run over storable pairs has lost none. */
  ghost predicate Progress(repo: LegacyRepository, t0: seq<W.WelfareRow>, done: seq<(Item, Dto.Embedding)>,
                           pending: seq<(Item, Dto.Embedding)>, count: nat)
    reads repo, repo.conn
  {
    repo.Valid() && count == |done| &&
    (!repo.aborted ==> repo.conn.table == t0 + RowsOf(pending)) &&
    (forall p :: p in pending ==> p in done) &&
    (repo.aborted ==> count > 0) &&
    (repo.conn.faults == map[] && Storable(done, t0) ==> !repo.aborted && pending == done)
  }

  /** One item of the loop: its embedding is asked for; a failed one leaves
      everything as it was, any other is inserted and counted. */
  method EmbedStep(repo: LegacyRepository, s: EmbeddingService, invoke: (string, string) -> Reply,
                   items: seq<Item>, i: nat, ghost t0: seq<W.WelfareRow>, ghost done: seq<(Item, Dto.Embedding)>,
                   ghost pending: seq<(Item, Dto.Embedding)>, count: nat)
    returns (ghost done': seq<(Item, Dto.Embedding)>, ghost pending': seq<(Item, Dto.Embedding)>, count': nat)
    requires i < |items| && done == P.Embedded(items[..i], EmbeddingText, Embedder(s, invoke))
    requires Progress(repo, t0, done, pending, count)
    modifies repo, repo.conn
    ensures done' == P.Embedded(items[..i + 1], EmbeddingText, Embedder(s, invoke))
    ensures repo.conn.committed == old(repo.conn.committed) && repo.conn.closed == old(repo.conn.closed)
    ensures Progress(repo, t0, done', pending', count')
  {
    var item := items[i];
    EmbeddedStep(items, i, Embedder(s, invoke));
    var e := CreateEmbeddingForService(s, item, invoke);
    if e.Some? {
      pending' := InsertPair(repo, item, e.value, t0, done, pending);
      done' := done + [(item, e.value)];
      count' := count + 1;
    } else {
      done', pending', count' := done, pending, count;
    }
  }

  /** The loop over the new items (lines 81-99): each item's text is
      embedded; an item whose embedding fails is skipped, and every other one
      is inserted and counted, whether or not the insert succeeded.
      `pending` holds the pairs whose rows the transaction gained. */
  method EmbedAndInsert(repo: LegacyRepository, s: EmbeddingService, invoke: (string, string) -> Reply, newItems: seq<Item>)
    returns (count: nat, ghost pending: seq<(Item, Dto.Embedding)>)
    requires repo.Valid() && !repo.aborted
    modifies repo, repo.conn
    ensures repo.conn.committed == old(repo.conn.committed) && repo.conn.closed == old(repo.conn.closed)
    ensures Progress(repo, old(repo.conn.table), P.Embedded(newItems, EmbeddingText, Embedder(s, invoke)), pending, count)
  {
    ghost var t0, c0, closed0 := repo.conn.table, repo.conn.committed, repo.conn.closed;
    ghost var done: seq<(Item, Dto.Embedding)> := [];
    pending := [];
    count := 0;
    assert RowsOf(pending) == [];
    for i := 0 to |newItems|
      invariant done == P.Embedded(newItems[..i], EmbeddingText, Embedder(s, invoke))
      invariant repo.conn.committed == c0 && repo.conn.closed == closed0
      invariant Progress(repo, t0, done, pending, count)
    {
      done, pending, count := EmbedStep(repo, s, invoke, newItems, i, t0, done, pending, count);
    }
    assert newItems[..|newItems|] == newItems;
  }

  /** A non-empty sequence whose members all lie in `b` has its first one there. */
  lemma FirstMember<T>(a: seq<T>, b: seq<T>)
    requires forall p :: p in a ==> p in b
    ensures a != [] ==> a[0] in b
  {
    if a != [] {
      assert a[0] in a;
    }
  }

  /** The rest of a page once its new items are known (lines 81-105): the
      loop over the new items, then a commit when the count is positive.
      `stored` holds the pairs whose rows the commit made durable. */
  method InsertAndCommit(repo: LegacyRepository, s: EmbeddingService, invoke: (string, string) -> Reply, newItems: seq<Item>)
    returns (r: Outcome<nat>, ghost stored: seq<(Item, Dto.Embedding)>)
    requires repo.Valid() && !repo.aborted && repo.conn.table == repo.conn.committed
    modifies repo, repo.conn
    ensures repo.Valid() && repo.conn.closed == old(repo.conn.closed)
    ensures r.Returned? ==> !repo.aborted && repo.conn.table == repo.conn.committed
    ensures repo.conn.committed == old(repo.conn.committed) + RowsOf(stored)
    ensures forall p :: p in stored ==> p in P.Embedded(newItems, EmbeddingText, Embedder(s, invoke))
    ensures r.Returned? ==> r.value == |P.Embedded(newItems, EmbeddingText, Embedder(s, invoke))|
    ensures r.Raised? ==> repo.conn.faults != map[]
    ensures repo.conn.faults == map[] && Storable(P.Embedded(newItems, EmbeddingText, Embedder(s, invoke)), old(repo.conn.table)) ==>
      r.Returned? && stored == P.Embedded(newItems, EmbeddingText, Embedder(s, invoke))
  {
    ghost var emb := P.Embedded(newItems, EmbeddingText, Embedder(s, invoke));
    ghost var t0 := repo.conn.table;
    stored := [];
    assert RowsOf(stored) == [];
    var count, pending := EmbedAndInsert(repo, s, invoke, newItems);
    assert Progress(repo, t0, emb, pending, count);
    if count == 0 {
      FirstMember(pending, emb);
    }
    if count > 0 {
      ghost var wasAborted, tb, f := repo.aborted, repo.conn.table, repo.conn.FaultAt(repo.conn.stmts);
      var raised := repo.Commit();
      if raised {
        return Raised, stored;
      }
      if !wasAborted && f == None {
        stored := pending;
      }
    }
    r := Returned(count);
  }

  /** One page of the handler (lines 67-105): skip a page without ids; look
      up the stored ids; skip a page without new items; embed and insert the
      new items; commit when the page count is positive. `existing` is the
      lookup's answer and `stored` the pairs whose rows the page committed. */
  method ProcessPage(repo: LegacyRepository, s: EmbeddingService, invoke: (string, string) -> Reply, items: seq<Item>)
    returns (r: Outcome<nat>, ghost existing: set<string>, ghost stored: seq<(Item, Dto.Embedding)>)
    requires repo.Valid() && !repo.aborted && repo.conn.table == repo.conn.committed
    modifies repo, repo.conn
    ensures repo.Valid() && repo.conn.closed == old(repo.conn.closed)
    ensures r.Returned? ==> !repo.aborted && repo.conn.table == repo.conn.committed
    ensures repo.conn.committed == old(repo.conn.committed) + RowsOf(stored)
    ensures forall p :: p in stored ==> p in P.Embedded(NewItems(items, existing), EmbeddingText, Embedder(s, invoke))
    ensures forall p :: p in stored ==> p.0 in items && Embedder(s, invoke)(EmbeddingText(p.0)) == Some(p.1)
    ensures ServIds(items) == [] ==> r == Returned(0) && stored == [] && repo.conn.stmts == old(repo.conn.stmts)
    ensures ServIds(items) != [] && repo.conn.FaultAt(old(repo.conn.stmts)) == None ==>
      existing == W.ExistingIds(ServIds(items), old(repo.conn.table))
    ensures ServIds(items) != [] && repo.conn.FaultAt(old(repo.conn.stmts)) == Some(DbError) ==> existing == {}
    ensures ServIds(items) != [] && repo.conn.FaultAt(old(repo.conn.stmts)) == Some(Unexpected) ==> r == Raised
    ensures ServIds(items) != [] && r.Returned? ==>
      r.value == |P.Embedded(NewItems(items, existing), EmbeddingText, Embedder(s, invoke))|
    ensures r.Raised? ==> repo.conn.faults != map[]
    ensures ServIds(items) != [] && repo.conn.faults == map[] &&
            Storable(P.Embedded(NewItems(items, existing), EmbeddingText, Embedder(s, invoke)), old(repo.conn.table)) ==>
      r.Returned? && stored == P.Embedded(NewItems(items, existing), EmbeddingText, Embedder(s, invoke))
  {
    stored := [];
    existing := {};
    assert RowsOf(stored) == [];
    var ids := ServIds(items);
    if ids == [] {
      return Returned(0), existing, stored;
    }
    var found := repo.GetExistingIds(ids);
    if found.Raised? {
      return Raised, existing, stored;
    }
    existing := found.value;
    var newItems := NewItems(items, found.value);
    NewItemsMembers(items, found.value);
    if newItems == [] {
      return Returned(0), existing, stored;
    }
    r, stored := InsertAndCommit(repo, s, invoke, newItems);
  }

  /** The number of pages the handler asks for when no exception escapes:
      up to and including the first empty page, and never more than the limit. */
  function PagesAsked(pages: seq<seq<Item>>, pageLimit: int): (n: nat)
    ensures pageLimit <= 0 ==> n == 0
    ensures pageLimit > 0 ==> n <= pageLimit
    ensures 0 < n < pageLimit ==> P.PageAt(pages, n - 1) == []
    ensures forall k :: 0 <= k < n - 1 ==> P.PageAt(pages, k) != []
  {
    if pageLimit <= 0 then 0
    else if P.FirstEmpty(pages) < pageLimit then P.FirstEmpty(pages) + 1
    else pageLimit
  }

  /** Every stored pair comes from one of the first `n` pages and carries
      the embedding of its item's text. */
  ghost predicate FromPages(stored: seq<(Item, Dto.Embedding)>, pages: seq<seq<Item>>, n: nat,
                            s: EmbeddingService, invoke: (string, string) -> Reply)
  {
    forall p :: p in stored ==>
      Embedder(s, invoke)(EmbeddingText(p.0)) == Some(p.1) &&
      exists j :: 0 <= j < n && p.0 in P.PageAt(pages, j)
  }

  /** The pairs a page commits on `table` when nothing fails: none for a
      page without ids, otherwise its new items with their embeddings. */
  ghost function PagePairs(items: seq<Item>, table: seq<W.WelfareRow>, s: EmbeddingService,
                           invoke: (string, string) -> Reply): seq<(Item, Dto.Embedding)>
  {
    if ServIds(items) == [] then []
    else P.Embedded(NewItems(items, W.ExistingIds(ServIds(items), table)), EmbeddingText, Embedder(s, invoke))
  }

  /** The pairs a fault-free run commits over its first `n` pages: each
      page looked up against the table the earlier pages left. */
  ghost function RunPairs(pages: seq<seq<Item>>, n: nat, table: seq<W.WelfareRow>, s: EmbeddingService,
                          invoke: (string, string) -> Reply): seq<(Item, Dto.Embedding)>
    decreases n
  {
    if n == 0 then []
    else
      var before := RunPairs(pages, n - 1, table, s, invoke);
      before + PagePairs(P.PageAt(pages, n - 1), table + RowsOf(before), s, invoke)
  }

  /** `stored` holds exactly the pairs a fault-free run commits over its first `n` pages. */
  ghost predicate StoredAfter(stored: seq<(Item, Dto.Embedding)>, pages: seq<seq<Item>>, n: nat, table: seq<W.WelfareRow>,
                              s: EmbeddingService, invoke: (string, string) -> Reply)
  {
    stored == RunPairs(pages, n, table, s, invoke)
  }

  /** The table a fault-free run has left after its first `k` pages. */
  ghost function TableAfter(pages: seq<seq<Item>>, k: nat, table: seq<W.WelfareRow>, s: EmbeddingService,
                            invoke: (string, string) -> Reply): seq<W.WelfareRow>
  {
    table + RowsOf(RunPairs(pages, k, table, s, invoke))
  }

  /** Page `k`'s pairs go in one by one against the table the earlier pages left. */
  ghost predicate PageStorable(pages: seq<seq<Item>>, k: nat, table: seq<W.WelfareRow>, s: EmbeddingService,
                               invoke: (string, string) -> Reply)
  {
    Storable(PagePairs(P.PageAt(pages, k), TableAfter(pages, k, table, s, invoke), s, invoke),
             TableAfter(pages, k, table, s, invoke))
  }

  /** `ok` holds at every index below `n`. */
  ghost predicate AllBelow(n: nat, ok: nat -> bool)
    decreases n
  {
    n == 0 || (AllBelow(n - 1, ok) && ok(n - 1))
  }

  lemma {:induction false} AllBelowAt(n: nat, ok: nat -> bool, k: nat)
    requires AllBelow(n, ok) && k < n
    ensures ok(k)
    decreases n
  {
    if k < n - 1 {
      AllBelowAt(n - 1, ok, k);
    }
  }

  /** Every one of the first `n` pages is storable. */
  ghost predicate RunStorable(pages: seq<seq<Item>>, n: nat, table: seq<W.WelfareRow>, s: EmbeddingService,
                              invoke: (string, string) -> Reply)
  {
    AllBelow(n, PageOk(pages, table, s, invoke))
  }

  /** `PageStorable` as a property of the page index. */
  ghost function PageOk(pages: seq<seq<Item>>, table: seq<W.WelfareRow>, s: EmbeddingService,
                        invoke: (string, string) -> Reply): nat -> bool
  {
    (k: nat) => PageStorable(pages, k, table, s, invoke)
  }

  /** One non-empty page of the handler's loop, with the committed pairs so
      far. On a clean run (`clean`: no fault, each of the first `m` pages
      storable) the pairs after it are those of the first `n == k + 1` pages. */
  method PageStep(repo: LegacyRepository, s: EmbeddingService, invoke: (string, string) -> Reply,
                  pages: seq<seq<Item>>, k: nat, ghost n: nat, ghost m: nat, ghost c0: seq<W.WelfareRow>,
                  ghost stored: seq<(Item, Dto.Embedding)>, ghost clean: bool)
    returns (res: Outcome<nat>, ghost stored': seq<(Item, Dto.Embedding)>)
    requires n == k + 1
    requires repo.Valid() && !repo.aborted && repo.conn.table == repo.conn.committed
    requires repo.conn.committed == c0 + RowsOf(stored) && FromPages(stored, pages, k, s, invoke)
    requires clean ==> repo.conn.faults == map[] && StoredAfter(stored, pages, k, c0, s, invoke)
    requires clean ==> k < m && RunStorable(pages, m, c0, s, invoke)
    modifies repo, repo.conn
    ensures repo.Valid() && repo.conn.closed == old(repo.conn.closed)
    ensures repo.conn.committed == c0 + RowsOf(stored') && FromPages(stored', pages, k + 1, s, invoke)
    ensures res.Returned? ==> !repo.aborted && repo.conn.table == repo.conn.committed
    ensures res.Raised? ==> repo.conn.faults != map[]
    ensures clean ==> res.Returned? && StoredAfter(stored', pages, n, c0, s, invoke)
  {
    if clean {
      AllBelowAt(m, PageOk(pages, c0, s, invoke), k);
    }
    ghost var st, existing;
    res, existing, st := ProcessPage(repo, s, invoke, P.PageAt(pages, k));
    RowsAfter(c0, stored, st);
    PageStored(stored, st, pages, k, s, invoke);
    stored' := stored + st;
  }

  /** An empty page adds no pairs to a run. */
  lemma RunPairsEmptyPage(pages: seq<seq<Item>>, k: nat, table: seq<W.WelfareRow>, s: EmbeddingService,
                          invoke: (string, string) -> Reply, stored: seq<(Item, Dto.Embedding)>)
    requires P.PageAt(pages, k) == []
    requires StoredAfter(stored, pages, k, table, s, invoke)
    ensures StoredAfter(stored, pages, k + 1, table, s, invoke)
  {
    assert ServIds([]) == [];
  }

  /** The page loop of `handler` (the body of its `try`): pages `startPage`,
      `startPage + 1`, ... up to the limit, as the adapter returns them
      (`pages[k]` for page `startPage + k`), stopping at the first empty page.
      Each page is processed and committed on its own; an escaping exception
      ends the loop. `requested` lists the pages asked for and `stored` the
      pairs whose rows were committed; on a clean run (`clean`: no fault and
      every page storable) they are exactly the pairs of the pages asked for. */
  method RunPages(repo: LegacyRepository, s: EmbeddingService, invoke: (string, string) -> Reply,
                  pages: seq<seq<Item>>, startPage: int, pageLimit: int, ghost clean: bool)
    returns (r: Outcome<nat>, ghost requested: seq<int>, ghost stored: seq<(Item, Dto.Embedding)>)
    requires repo.Valid() && !repo.aborted && repo.conn.table == repo.conn.committed
    requires clean ==> repo.conn.faults == map[] && RunStorable(pages, PagesAsked(pages, pageLimit), repo.conn.committed, s, invoke)
    modifies repo, repo.conn
    ensures repo.Valid() && repo.conn.closed == old(repo.conn.closed)
    ensures r.Returned? ==> !repo.aborted && repo.conn.table == repo.conn.committed
    ensures forall k :: 0 <= k < |requested| ==> requested[k] == startPage + k
    ensures |requested| <= PagesAsked(pages, pageLimit)
    ensures r.Returned? ==> |requested| == PagesAsked(pages, pageLimit)
    ensures r.Raised? ==> repo.conn.faults != map[]
    ensures repo.conn.committed == old(repo.conn.committed) + RowsOf(stored)
    ensures FromPages(stored, pages, |requested|, s, invoke)
    ensures clean ==> StoredAfter(stored, pages, PagesAsked(pages, pageLimit), old(repo.conn.committed), s, invoke)
  {
    ghost var c0 := repo.conn.committed;
    requested, stored := [], [];
    assert RowsOf(stored) == [];
    var total: nat := 0;
    var k := 0;
    while k < pageLimit
      invariant 0 <= k <= P.FirstEmpty(pages) && k <= (if pageLimit > 0 then pageLimit else 0)
      invariant |requested| == k && forall j :: 0 <= j < k ==> requested[j] == startPage + j
      invariant repo.Valid() && !repo.aborted && repo.conn.table == repo.conn.committed
      invariant repo.conn.closed == old(repo.conn.closed)
      invariant repo.conn.committed == c0 + RowsOf(stored) && FromPages(stored, pages, k, s, invoke)
      invariant clean ==> StoredAfter(stored, pages, k, c0, s, invoke)
      decreases pageLimit - k
    {
      requested := requested + [startPage + k];
      var items := P.PageAt(pages, k);
      if items == [] {
        assert k == P.FirstEmpty(pages);
        if clean {
          RunPairsEmptyPage(pages, k, c0, s, invoke, stored);
        }
        return Returned(total), requested, stored;
      }
      assert k < P.FirstEmpty(pages);
      assert k < PagesAsked(pages, pageLimit);
      var res;
      res, stored := PageStep(repo, s, invoke, pages, k, k + 1, PagesAsked(pages, pageLimit), c0, stored, clean);
      if res.Raised? {
        return Raised, requested, stored;
      }
      total := total + res.value;
      k := k + 1;
    }
    r := Returned(total);
  }

  /** `handler`: the page loop; an escaping exception rolls the open
      transaction back and is raised again; the connection is closed either
      way. Every committed pair comes from a requested page with its item's
      embedding, and when no statement fails and every page's new items are
      storable, the committed pairs are exactly the new, embedded items of
      the pages asked for, page by page. */
  method Handler(repo: LegacyRepository, s: EmbeddingService, invoke: (string, string) -> Reply,
                 pages: seq<seq<Item>>, startPage: int, pageLimit: int)
    returns (r: Outcome<nat>, ghost requested: seq<int>, ghost stored: seq<(Item, Dto.Embedding)>)
    requires repo.Valid() && !repo.aborted && repo.conn.table == repo.conn.committed
    modifies repo, repo.conn
    ensures repo.conn.closed && repo.Valid() && repo.conn.table == repo.conn.committed
    ensures forall k :: 0 <= k < |requested| ==> requested[k] == startPage + k
    ensures |requested| <= PagesAsked(pages, pageLimit)
    ensures r.Returned? ==> |requested| == PagesAsked(pages, pageLimit)
    ensures repo.conn.faults == map[] ==> r.Returned?
    ensures repo.conn.committed == old(repo.conn.committed) + RowsOf(stored)
    ensures FromPages(stored, pages, |requested|, s, invoke)
    ensures repo.conn.faults == map[] && RunStorable(pages, PagesAsked(pages, pageLimit), old(repo.conn.committed), s, invoke) ==>
      StoredAfter(stored, pages, PagesAsked(pages, pageLimit), old(repo.conn.committed), s, invoke)
  {
    ghost var clean := repo.conn.faults == map[] && RunStorable(pages, PagesAsked(pages, pageLimit), repo.conn.committed, s, invoke);
    r, requested, stored := RunPages(repo, s, invoke, pages, startPage, pageLimit, clean);
    if r.Raised? {
      repo.Rollback();
    }
    repo.Close();
  }

  /** The pairs a page committed come from that page and carry the
      embedding of their item's text. */
  lemma PageStored(stored: seq<(Item, Dto.Embedding)>, st: seq<(Item, Dto.Embedding)>, pages: seq<seq<Item>>, k: nat,
                   s: EmbeddingService, invoke: (string, string) -> Reply)
    requires FromPages(stored, pages, k, s, invoke)
    requires forall p :: p in st ==> p.0 in P.PageAt(pages, k) && Embedder(s, invoke)(EmbeddingText(p.0)) == Some(p.1)
    ensures FromPages(stored + st, pages, k + 1, s, invoke)
  {
    forall p | p in stored + st
      ensures Embedder(s, invoke)(EmbeddingText(p.0)) == Some(p.1)
      ensures exists j :: 0 <= j < k + 1 && p.0 in P.PageAt(pages, j)
    {
      if p in stored {
        var j :| 0 <= j < k && p.0 in P.PageAt(pages, j);
        assert 0 <= j < k + 1;
      } else {
        assert p.0 in P.PageAt(pages, k);
      }
    }
  }
}
