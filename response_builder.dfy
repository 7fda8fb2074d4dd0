/** The chatbot's search-result helpers: the rows of the two vector searches
    reduced to one five-field document, the location re-ranking that keeps
    the best three, and the context text handed to the language model. */
module ResponseBuilder {
  import opened Wrappers
  import opened Text

  const Nationwide: string := "전국"
  const NoLink: string := "상세 링크 정보 없음"
  /** The message of the `TypeError` that `in` raises on a NULL text. */
  const NoneNotIterable: string := "argument of type 'NoneType' is not iterable"

  /** The five fields every result is reduced to: name, summary, link,
      province and city or district. Each is a column a welfare row may
      leave NULL; a job row's document has all five. */
  datatype Doc = Doc(name: Option<string>, summary: Option<string>, url: Option<string>,
                     province: Option<string>, city: Option<string>)

  /** A row of the job search: score, title, company, description, link and
      location (the last four may be NULL). */
  datatype JobRow = JobRow(score: real, jobTitle: Option<string>, companyName: Option<string>,
                           jobDescription: Option<string>, detailLink: Option<string>, location: Option<string>)

  /** A row of the welfare search: the score followed by the five fields. */
  datatype ServiceRow = ServiceRow(score: real, doc: Doc)

  // ---------------------------------------------------------------------------
  // normalize_results
  // ---------------------------------------------------------------------------

  /** Province and city of a job location: a location with a space is split
      at its spaces (`split(' ', 2)`) into its first two pieces; any other
      location is the province alone, and a missing one is nationwide. */
  function Place(location: Option<string>): (r: (string, string))
    ensures !Truthy(location) ==> r == (Nationwide, "")
    ensures Truthy(location) && ' ' !in location.value ==> r == (location.value, "")
    ensures Truthy(location) && ' ' in location.value ==>
      ' ' !in r.0 && ' ' !in r.1 && StartsWith(location.value, r.0 + " " + r.1) &&
      (|r.0| + 1 + |r.1| == |location.value| || location.value[|r.0| + 1 + |r.1|] == ' ')
  {
    if Truthy(location) && ' ' in location.value then
      var loc := location.value;
      var parts := Split(loc, ' ');
      SplitHead(loc, ' ');
      var h := parts[0];
      var rest := loc[|h| + 1..];
      assert loc == h + [' '] + rest;
      SplitAfterHead(h, ' ', rest);
      var c := Split(rest, ' ')[0];
      assert parts[1] == c;
      FirstPiece(rest, ' ');
      assert loc[..|h| + 1 + |c|] == h + [' '] + rest[..|c|];
      (h, c)
    else
      (Or(location, Nationwide), "")
  }

  /** The first piece of a split is the text up to the first separator, or
      the whole text when there is none. */
  lemma FirstPiece(s: string, sep: char)
    ensures |Split(s, sep)[0]| <= |s| && s[..|Split(s, sep)[0]|] == Split(s, sep)[0]
    ensures sep !in Split(s, sep)[0]
    ensures |Split(s, sep)[0]| == |s| || s[|Split(s, sep)[0]|] == sep
  {
    if sep in s {
      SplitHead(s, sep);
    } else {
      SplitWhole(s, sep);
    }
  }

  /** A location written as a space-free province, one space and a space-free
      district splits back into the two. */
  lemma PlaceOfPair(p: string, c: string)
    requires p != "" && ' ' !in p && ' ' !in c
    ensures Place(Some(p + " " + c)) == (p, c)
  {
    var loc := p + " " + c;
    assert loc == p + [' '] + c && loc[|p|] == ' ';
    SplitWhole(c, ' ');
    SplitAfterHead(p, ' ', c);
  }

  /** The document of a job row. */
  function JobDoc(row: JobRow): Doc {
    var company, title := Show(row.companyName), Show(row.jobTitle);
    var place := Place(row.location);
    Doc(Some(company + " - " + title),
        Some(Or(row.jobDescription, company + "의 " + title + " 채용")),
        Some(Or(row.detailLink, NoLink)),
        Some(place.0), Some(place.1))
  }

  /** A job's name is "company - title"; a missing description becomes
      "{company}의 {title} 채용", a missing link the no-link notice, and a
      missing location the nationwide province with no district; present
      values pass through. */
  lemma JobDocFields(row: JobRow)
    ensures JobDoc(row).name == Some(Show(row.companyName) + " - " + Show(row.jobTitle))
    ensures !Truthy(row.jobDescription) ==>
      JobDoc(row).summary == Some(Show(row.companyName) + "의 " + Show(row.jobTitle) + " 채용")
    ensures Truthy(row.jobDescription) ==> JobDoc(row).summary == row.jobDescription
    ensures JobDoc(row).url == Some(if Truthy(row.detailLink) then row.detailLink.value else NoLink)
    ensures !Truthy(row.location) ==> JobDoc(row).province == Some(Nationwide) && JobDoc(row).city == Some("")
    ensures Truthy(row.location) && ' ' !in row.location.value ==>
      JobDoc(row).province == row.location && JobDoc(row).city == Some("")
    ensures Truthy(row.location) && ' ' in row.location.value ==>
      JobDoc(row).province.Some? && JobDoc(row).city.Some? &&
      StartsWith(row.location.value, JobDoc(row).province.value + " " + JobDoc(row).city.value)
  {
  }

  /** The EMPLOYMENT branch of `normalize_results`: one `(score, document)`
      pair per row, in order. */
  method NormalizeJobs(rows: seq<JobRow>) returns (r: seq<(real, Doc)>)
    ensures |r| == |rows|
    ensures forall i :: 0 <= i < |rows| ==> r[i] == (rows[i].score, JobDoc(rows[i]))
  {
    r := [];
    for i := 0 to |rows|
      invariant |r| == i
      invariant forall k :: 0 <= k < i ==> r[k] == (rows[k].score, JobDoc(rows[k]))
    {
      r := r + [(rows[i].score, JobDoc(rows[i]))];
    }
  }

  /** The WELFARE branch of `normalize_results`: each row split into its
      score and the rest, in order, NULL columns kept as they are. */
  method NormalizeServices(rows: seq<ServiceRow>) returns (r: seq<(real, Doc)>)
    ensures |r| == |rows|
    ensures forall i :: 0 <= i < |rows| ==> r[i].0 == rows[i].score && r[i].1 == rows[i].doc
  {
    r := [];
    for i := 0 to |rows|
      invariant |r| == i
      invariant forall k :: 0 <= k < i ==> r[k].0 == rows[k].score && r[k].1 == rows[k].doc
    {
      r := r + [(rows[i].score, rows[i].doc)];
    }
  }

  // ---------------------------------------------------------------------------
  // rerank_results
  // ---------------------------------------------------------------------------

  /** `loc in service_name or loc in summary or loc == province or loc == city_district`,
      evaluated from left to right: `None` when the test reaches a NULL name
      or summary, where `in` raises `TypeError`; a NULL province or district
      merely differs from every location. */
  function MentionTest(doc: Doc, loc: string): (r: Option<bool>)
    ensures r.None? <==> doc.name.None? || (!Contains(doc.name.value, loc) && doc.summary.None?)
  {
    if doc.name.None? then None
    else if Contains(doc.name.value, loc) then Some(true)
    else if doc.summary.None? then None
    else Some(Contains(doc.summary.value, loc) || Some(loc) == doc.province || Some(loc) == doc.city)
  }

  predicate Mentions(doc: Doc, loc: string) {
    MentionTest(doc, loc) == Some(true)
  }

  /** No test of the document against a location raises. */
  predicate Testable(doc: Doc, locs: seq<string>) {
    forall j :: 0 <= j < |locs| ==> MentionTest(doc, locs[j]).Some?
  }

  /** No test of a document against a location raises. */
  predicate AllTestable(results: seq<Doc>, locs: seq<string>) {
    forall i :: 0 <= i < |results| ==> Testable(results[i], locs)
  }

  /** How many of the locations the document mentions. */
  function Hits(doc: Doc, locs: seq<string>): (n: nat)
    ensures n <= |locs|
    decreases |locs|
  {
    if locs == [] then 0
    else Hits(doc, locs[..|locs| - 1]) + (if Mentions(doc, locs[|locs| - 1]) then 1 else 0)
  }

  /** A document's score: ten per location it mentions. */
  function Score(doc: Doc, locs: seq<string>): nat {
    10 * Hits(doc, locs)
  }

  /** The `{'score', 'data'}` records, in input order. */
  function RankedOf(results: seq<Doc>, locs: seq<string>): (r: seq<(nat, Doc)>)
    ensures |r| == |results|
    ensures forall i :: 0 <= i < |results| ==> r[i] == (Score(results[i], locs), results[i])
  {
    seq(|results|, i requires 0 <= i < |results| => (Score(results[i], locs), results[i]))
  }

  /** Scores never increase along the list. */
  predicate SortedDesc(l: seq<(nat, Doc)>) {
    forall i, j :: 0 <= i < j < |l| ==> l[i].0 >= l[j].0
  }

  /** The records of a list that carry score `v`, in order. */
  function WithScore(l: seq<(nat, Doc)>, v: nat): seq<(nat, Doc)>
    decreases |l|
  {
    if l == [] then [] else (if l[0].0 == v then [l[0]] else []) + WithScore(l[1..], v)
  }

  /** `x` placed after every record whose score is at least its own. */
  function Insert(l: seq<(nat, Doc)>, x: (nat, Doc)): (r: seq<(nat, Doc)>)
    ensures |r| == |l| + 1
    ensures r[0] == x || (l != [] && r[0] == l[0])
    ensures multiset(r) == multiset(l) + multiset{x}
    decreases |l|
  {
    if l == [] then [x]
    else if l[0].0 >= x.0 then
      assert l == [l[0]] + l[1..];
      [l[0]] + Insert(l[1..], x)
    else [x] + l
  }

  /** `sorted(ranked, key=score, reverse=True)`: a stable sort by descending
      score (records are inserted one after the other, each after all the
      records already placed whose score is at least its own). */
  function SortDesc(l: seq<(nat, Doc)>): (r: seq<(nat, Doc)>)
    ensures multiset(r) == multiset(l)
    decreases |l|
  {
    if l == [] then []
    else
      assert l == l[..|l| - 1] + [l[|l| - 1]];
      Insert(SortDesc(l[..|l| - 1]), l[|l| - 1])
  }

  lemma {:induction false} WithScoreAppend(a: seq<(nat, Doc)>, b: seq<(nat, Doc)>, v: nat)
    ensures WithScore(a + b, v) == WithScore(a, v) + WithScore(b, v)
    decreases |a|
  {
    if a == [] {
      assert a + b == b;
    } else {
      var head: seq<(nat, Doc)> := if a[0].0 == v then [a[0]] else [];
      WithScoreAppend(a[1..], b, v);
      assert (a + b)[0] == a[0];
      assert (a + b)[1..] == a[1..] + b;
      assert WithScore(a + b, v) == head + (WithScore(a[1..], v) + WithScore(b, v));
      assert head + (WithScore(a[1..], v) + WithScore(b, v)) == (head + WithScore(a[1..], v)) + WithScore(b, v);
    }
  }

  lemma {:induction false} WithScoreNone(l: seq<(nat, Doc)>, v: nat)
    requires forall i :: 0 <= i < |l| ==> l[i].0 != v
    ensures WithScore(l, v) == []
    decreases |l|
  {
    if l != [] {
      WithScoreNone(l[1..], v);
    }
  }

  /** Inserting into a list sorted by descending score keeps it sorted. */
  lemma {:induction false} InsertSorted(l: seq<(nat, Doc)>, x: (nat, Doc))
    requires SortedDesc(l)
    ensures SortedDesc(Insert(l, x))
    decreases |l|
  {
    if l != [] && l[0].0 >= x.0 {
      var t := l[1..];
      InsertSorted(t, x);
      InsertSortedAfter(l[0], Insert(t, x));
    } else if l != [] {
      InsertSortedAfter(x, l);
    }
  }

  /** A head scoring at least every record of a sorted tail keeps it sorted. */
  lemma InsertSortedAfter(h: (nat, Doc), t: seq<(nat, Doc)>)
    requires SortedDesc(t) && (t == [] || t[0].0 <= h.0)
    ensures SortedDesc([h] + t)
  {
    var r := [h] + t;
    forall i, j | 0 <= i < j < |r|
      ensures r[i].0 >= r[j].0
    {
      assert r[j] == t[j - 1];
      if i > 0 {
        assert r[i] == t[i - 1];
      }
    }
  }

  /** Among the records of score `v`, an inserted one comes last. */
  lemma {:induction false} InsertWithScore(l: seq<(nat, Doc)>, x: (nat, Doc), v: nat)
    requires SortedDesc(l)
    ensures WithScore(Insert(l, x), v) == WithScore(l, v) + (if x.0 == v then [x] else [])
    decreases |l|, 1
  {
    if l == [] {
      var r := Insert(l, x);
      assert r == [x] && r[1..] == [];
    } else if l[0].0 >= x.0 {
      InsertWithScoreAfter(l, x, v);
    } else {
      InsertWithScoreFront(l, x, v);
    }
  }

  /** The inserted record goes after the head: the head's records of score
      `v` come first. */
  lemma {:induction false} InsertWithScoreAfter(l: seq<(nat, Doc)>, x: (nat, Doc), v: nat)
    requires SortedDesc(l) && l != [] && l[0].0 >= x.0
    ensures WithScore(Insert(l, x), v) == WithScore(l, v) + (if x.0 == v then [x] else [])
    decreases |l|, 0
  {
    var r := Insert(l, x);
    var last: seq<(nat, Doc)> := if x.0 == v then [x] else [];
    var head: seq<(nat, Doc)> := if l[0].0 == v then [l[0]] else [];
    var rest := WithScore(l[1..], v);
    InsertWithScore(l[1..], x, v);
    assert r[0] == l[0] && r[1..] == Insert(l[1..], x);
    assert WithScore(r, v) == head + (rest + last);
    assert head + (rest + last) == (head + rest) + last;
  }

  /** The inserted record goes in front: it scores more than every record
      of the list, so it is the only one of its score. */
  lemma InsertWithScoreFront(l: seq<(nat, Doc)>, x: (nat, Doc), v: nat)
    requires SortedDesc(l) && l != [] && l[0].0 < x.0
    ensures WithScore(Insert(l, x), v) == WithScore(l, v) + (if x.0 == v then [x] else [])
  {
    var r := Insert(l, x);
    assert r[0] == x && r[1..] == l;
    if x.0 == v {
      WithScoreNone(l, v);
    }
  }

  /** The sort orders by descending score. */
  lemma {:induction false} SortDescSorted(l: seq<(nat, Doc)>)
    ensures SortedDesc(SortDesc(l))
    decreases |l|
  {
    if l != [] {
      SortDescSorted(l[..|l| - 1]);
      InsertSorted(SortDesc(l[..|l| - 1]), l[|l| - 1]);
    }
  }

  /** The sort is stable: the records of each score appear in the order they had. */
  lemma {:induction false} SortDescStable(l: seq<(nat, Doc)>, v: nat)
    ensures WithScore(SortDesc(l), v) == WithScore(l, v)
    decreases |l|
  {
    if l != [] {
      var init: seq<(nat, Doc)> := l[..|l| - 1];
      var last: (nat, Doc) := l[|l| - 1];
      SortDescStable(init, v);
      SortDescSorted(init);
      InsertWithScore(SortDesc(init), last, v);
      SortDescLast(l);
      WithScoreLast(l, v);
    }
  }

  /** The sort of a non-empty list inserts its last record into the sort of the rest. */
  lemma SortDescLast(l: seq<(nat, Doc)>)
    requires l != []
    ensures SortDesc(l) == Insert(SortDesc(l[..|l| - 1]), l[|l| - 1])
  {
  }

  /** The records of score `v` of a non-empty list: those of all but its
      last record, then the last when it has that score. */
  lemma WithScoreLast(l: seq<(nat, Doc)>, v: nat)
    requires l != []
    ensures WithScore(l, v) == WithScore(l[..|l| - 1], v) + (if l[|l| - 1].0 == v then [l[|l| - 1]] else [])
  {
    var init, one := l[..|l| - 1], [l[|l| - 1]];
    assert l == init + one;
    WithScoreAppend(init, one, v);
    assert one[1..] == [];
  }

  function Min3(n: nat): nat {
    if n < 3 then n else 3
  }

  /** `rerank_results`: without locations or results, the first three rows as
      they are; otherwise the `TypeError` of a test that meets a NULL name or
      summary, or else the data of the first three records after the stable
      descending sort by score. */
  function Rerank(results: seq<Doc>, locations: Option<seq<string>>): (r: Result<seq<Doc>, string>)
    ensures locations.None? || locations.value == [] ==> r == Success(results[..Min3(|results|)])
    ensures locations.Some? ==> (r.Failure? <==> !AllTestable(results, locations.value))
    ensures r.Failure? ==> r.error == NoneNotIterable
    ensures r.Success? ==> |r.value| == Min3(|results|) && forall d :: d in r.value ==> d in results
    ensures r.Success? && locations.Some? ==>
      forall i, j :: 0 <= i < j < |r.value| ==> Score(r.value[i], locations.value) >= Score(r.value[j], locations.value)
  {
    if locations.None? || locations.value == [] || results == [] then
      Success(results[..Min3(|results|)])
    else if !AllTestable(results, locations.value) then
      Failure(NoneNotIterable)
    else
      var sorted := SortDesc(RankedOf(results, locations.value));
      SortedRanked(results, locations.value);
      Success(seq(Min3(|results|), i requires 0 <= i < Min3(|results|) => sorted[i].1))
  }

  /** The sorted records: one per result, by descending score, each carrying
      its document's score and a document of the results. */
  lemma SortedRanked(results: seq<Doc>, locs: seq<string>)
    ensures |SortDesc(RankedOf(results, locs))| == |results|
    ensures SortedDesc(SortDesc(RankedOf(results, locs)))
    ensures forall i :: 0 <= i < |results| ==>
      SortDesc(RankedOf(results, locs))[i].0 == Score(SortDesc(RankedOf(results, locs))[i].1, locs) &&
      SortDesc(RankedOf(results, locs))[i].1 in results
  {
    var ranked := RankedOf(results, locs);
    var sorted := SortDesc(ranked);
    SortDescSorted(ranked);
    assert |sorted| == |ranked| by {
      assert |multiset(sorted)| == |multiset(ranked)|;
    }
    forall i | 0 <= i < |sorted|
      ensures sorted[i].0 == Score(sorted[i].1, locs) && sorted[i].1 in results
    {
      assert sorted[i] in multiset(ranked);
      var k :| 0 <= k < |ranked| && ranked[k] == sorted[i];
    }
  }

  /** The kept rows are the best: a row left out scores no more than the
      last row kept. */
  lemma RerankTop(results: seq<Doc>, locs: seq<string>, d: Doc)
    requires locs != [] && AllTestable(results, locs)
    requires d in results && d !in Rerank(results, Some(locs)).value
    ensures |Rerank(results, Some(locs)).value| == 3
    ensures Score(d, locs) <= Score(Rerank(results, Some(locs)).value[2], locs)
  {
    var ranked := RankedOf(results, locs);
    var sorted := SortDesc(ranked);
    SortedRanked(results, locs);
    var r := Rerank(results, Some(locs)).value;
    var k :| 0 <= k < |results| && results[k] == d;
    assert ranked[k] in multiset(sorted);
    var p :| 0 <= p < |sorted| && sorted[p] == ranked[k];
    forall q | 0 <= q < Min3(|results|)
      ensures sorted[q].1 in r
    {
      assert r[q] == sorted[q].1;
    }
  }

  /** The rows of the sort that share a score keep their input order. */
  lemma RerankStable(results: seq<Doc>, locs: seq<string>, v: nat)
    ensures WithScore(SortDesc(RankedOf(results, locs)), v) == WithScore(RankedOf(results, locs), v)
  {
    SortDescStable(RankedOf(results, locs), v);
  }

  /** The inner loop of `rerank_results`: ten for each location the row
      mentions, or `None` at the first test that raises. */
  method ScoreRow(row: Doc, locs: seq<string>) returns (r: Option<nat>)
    ensures r.None? <==> !Testable(row, locs)
    ensures r.Some? ==> r.value == Score(row, locs)
  {
    var score := 0;
    for j := 0 to |locs|
      invariant score == 10 * Hits(row, locs[..j])
      invariant forall q :: 0 <= q < j ==> MentionTest(row, locs[q]).Some?
    {
      assert locs[..j + 1][..j] == locs[..j];
      var hit := MentionTest(row, locs[j]);
      if hit.None? {
        return None;
      }
      if hit.value {
        score := score + 10;
      }
    }
    assert locs[..|locs|] == locs;
    r := Some(score);
  }

  /** `rerank_results`: the scores are counted location by location, and the
      first test that meets a NULL name or summary raises; then the records
      are sorted and the first three kept. */
  method RerankResults(results: seq<Doc>, locations: Option<seq<string>>) returns (r: Result<seq<Doc>, string>)
    ensures r == Rerank(results, locations)
  {
    if locations.None? || locations.value == [] || results == [] {
      return Success(results[..Min3(|results|)]);
    }
    var locs := locations.value;
    var ranked: seq<(nat, Doc)> := [];
    for i := 0 to |results|
      invariant ranked == RankedOf(results[..i], locs)
      invariant forall k :: 0 <= k < i ==> Testable(results[k], locs)
    {
      var score := ScoreRow(results[i], locs);
      if score.None? {
        return Failure(NoneNotIterable);
      }
      ranked := ranked + [(score.value, results[i])];
    }
    assert results[..|results|] == results;
    var sorted := SortDesc(ranked);
    SortedRanked(results, locs);
    r := Success(seq(Min3(|results|), i requires 0 <= i < Min3(|results|) => sorted[i].1));
  }

  // ---------------------------------------------------------------------------
  // format_context_string
  // ---------------------------------------------------------------------------

  /** `f"{prov} {city}".strip() or "전국"`, as written: a NULL column prints
      as "None". */
  function RegionText(prov: Option<string>, city: Option<string>): (r: string)
    ensures r != ""
  {
    Region(Show(prov), Show(city))
  }

  /** The stripped "province district" text, or nationwide when nothing is left. */
  function Region(p: string, c: string): string {
    var t := Strip(p + " " + c);
    if t == "" then Nationwide else t
  }

  /** An empty region reads nationwide; a trimmed province alone, or a
      trimmed province and district, read as written; and so a NULL
      province and district, as a central service has, read "None None". */
  lemma RegionTextCases(prov: Option<string>, city: Option<string>)
    ensures prov == Some("") && city == Some("") ==> RegionText(prov, city) == Nationwide
    ensures Trimmed(Show(prov)) && city == Some("") ==> RegionText(prov, city) == Show(prov)
    ensures Trimmed(Show(prov)) && Trimmed(Show(city)) ==> RegionText(prov, city) == Show(prov) + " " + Show(city)
    ensures prov.None? && city.None? ==> RegionText(prov, city) == "None None"
  {
    RegionCases(Show(prov), Show(city));
    assert Trimmed("None") by {
      assert !IsSpace("None"[0]) && !IsSpace("None"[3]);
    }
  }

  lemma RegionCases(p: string, c: string)
    ensures p == "" && c == "" ==> Region(p, c) == Nationwide
    ensures Trimmed(p) && c == "" ==> Region(p, c) == p
    ensures Trimmed(p) && Trimmed(c) ==> Region(p, c) == p + " " + c
  {
    if p == "" && c == "" {
      StripEmpty(" ");
    }
    if Trimmed(p) && c == "" {
      var s := p + " " + c;
      assert s == p + " " && s[0] == p[0];
      assert TrimStart(s) == s;
      assert s[..|s| - 1] == p;
      StripUnchanged(p);
      assert TrimEnd(s) == TrimEnd(p);
    }
    if Trimmed(p) && Trimmed(c) {
      var s := p + " " + c;
      assert s[0] == p[0] && s[|s| - 1] == c[|c| - 1];
      StripUnchanged(s);
    }
  }

  /** A central service's region as written is "None None", not the
      nationwide fallback. */
  lemma RegionOfCentralService()
    ensures RegionText(None, None) == "None None" != Nationwide
  {
    RegionTextCases(None, None);
  }

  /** The region the fallback is evidently meant to give: a NULL column reads
      as empty (as the ingestor's own `or ''` does when it builds a service's
      text), so a service with neither province nor district reads
      nationwide. */
  function RegionTextIntended(prov: Option<string>, city: Option<string>): (r: string)
    ensures r != ""
  {
    Region(Or(prov, ""), Or(city, ""))
  }

  /** The intended region agrees with the written one wherever both columns
      are present, and reads nationwide for a NULL or empty province and
      district, and the province alone when only the district is NULL. */
  lemma RegionTextIntendedCases(prov: Option<string>, city: Option<string>)
    ensures prov.Some? && city.Some? ==> RegionTextIntended(prov, city) == RegionText(prov, city)
    ensures !Truthy(prov) && !Truthy(city) ==> RegionTextIntended(prov, city) == Nationwide
    ensures prov.Some? && Trimmed(prov.value) && !Truthy(city) ==> RegionTextIntended(prov, city) == prov.value
  {
    RegionCases(Or(prov, ""), Or(city, ""));
  }

  /** The context entry of the `i`-th document (counted from 1): its number
      and name, its summary and region, and its link. */
  function Entry(i: nat, d: Doc): string {
    EntryHead(i, d) + EntryBody(d) + EntryLink(d)
  }

  function EntryHead(i: nat, d: Doc): string {
    "문서 " + NatToString(i) + ":\n서비스명: " + Show(d.name)
  }

  function EntryBody(d: Doc): string {
    "\n요약: " + Show(d.summary) + "\n지역: " + RegionText(d.province, d.city)
  }

  function EntryLink(d: Doc): string {
    "\n링크: " + Show(d.url) + "\n"
  }

  /** The entries of the documents, numbered from 1. */
  function Entries(docs: seq<Doc>): (r: seq<string>)
    ensures |r| == |docs|
    decreases |docs|
  {
    if docs == [] then [] else Entries(docs[..|docs| - 1]) + [Entry(|docs|, docs[|docs| - 1])]
  }

  /** The `i`-th entry (from 0) is the entry of the `i`-th document, numbered `i + 1`. */
  lemma {:induction false} EntriesAt(docs: seq<Doc>, i: nat)
    requires i < |docs|
    ensures Entries(docs)[i] == Entry(i + 1, docs[i])
    decreases |docs|
  {
    var init := docs[..|docs| - 1];
    if i < |docs| - 1 {
      EntriesAt(init, i);
      assert init[i] == docs[i];
    }
  }

  /** Each entry opens with its number and the name, and ends with a newline. */
  lemma EntryShape(i: nat, d: Doc)
    ensures StartsWith(Entry(i, d), "문서 " + NatToString(i) + ":\n서비스명: " + Show(d.name))
    ensures EndsWith(Entry(i, d), "\n링크: " + Show(d.url) + "\n")
  {
    Pieces(EntryHead(i, d), EntryBody(d), EntryLink(d));
  }

  /** `format_context_string`: the entries joined by newlines. There is no
      context exactly when there is no document. */
  method FormatContextString(results: seq<Doc>) returns (r: string)
    ensures r == Join("\n", Entries(results))
    ensures r == "" <==> results == []
  {
    var items: seq<string> := [];
    for i := 0 to |results|
      invariant items == Entries(results[..i])
    {
      EntriesStep(results, i);
      items := items + [Entry(i + 1, results[i])];
    }
    assert results[..|results|] == results;
    r := Join("\n", items);
    ContextEmpty(results);
  }

  /** The entries of the first `i + 1` documents extend those of the first `i`. */
  lemma EntriesStep(results: seq<Doc>, i: nat)
    requires i < |results|
    ensures Entries(results[..i + 1]) == Entries(results[..i]) + [Entry(i + 1, results[i])]
  {
    var upto := results[..i + 1];
    assert upto[..i] == results[..i] && upto[i] == results[i];
  }

  /** No context exactly when there is no document. */
  lemma ContextEmpty(results: seq<Doc>)
    ensures Join("\n", Entries(results)) == "" <==> results == []
  {
    JoinEmpty("\n", Entries(results));
    if |results| == 1 {
      EntriesAt(results, 0);
      EntryShape(1, results[0]);
    }
  }
}
