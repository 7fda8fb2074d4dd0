/** The disabled-jobseeker job adapter (XML): header result-code gate, request
    parameters with a blacklist, and one `JobOpening` per item. */
module EmploymentFetcher {
  import opened Wrappers
  import opened Text
  import opened Dates
  import opened Dto
  import opened Fetch

  /** Event keys that can never overwrite a parameter. */
  const Reserved: set<string> := {"source", "serviceKey", "pageNo", "numOfRows"}

  datatype EmploymentFetcher = EmploymentFetcher(apiEndpoint: string, serviceKey: string, rowsPerPage: int)

  /** `_parse_employment_xml` on a parsed document: the `body/items/item`
      elements when `header/resultCode` is "0000", and nothing otherwise. */
  function AcceptedItems(doc: ListDoc): (r: seq<Item>)
    ensures r != [] ==> doc.resultCode == Some("0000")
    ensures doc.resultCode == Some("0000") ==> r == doc.items
  {
    if Or(doc.resultCode, "") == "0000" then doc.items else []
  }

  /** The skills of `reqLicens` (absent read as ''): its '/'-separated pieces,
      trimmed, without the empty ones. */
  function Skills(reqLicens: Option<string>): (r: seq<string>)
    ensures forall s :: s in r ==> Trimmed(s) && '/' !in s
    ensures reqLicens == None ==> r == []
  {
    SplitStripEmpty('/');
    SplitStrip(reqLicens.GetOr(""), '/')
  }

  /** `_map_to_dto`: `regDt` reformatted, `reqLicens` split on '/', a
      placeholder description built from the title, `termDate` kept raw. */
  function MapToDto(item: Item): (r: JobOpening)
    ensures r.companyName == Get(item, "busplaName") && r.jobTitle == Get(item, "jobNm")
    ensures r.jobDescription == Show(Get(item, "jobNm")) + " 직무 채용"
    ensures r.termDateStr == Get(item, "termDate")
    ensures r.lastModifiedDate.Some? <==> "regDt" in item && |item["regDt"]| == 8
    ensures r.requiredSkills == Skills(Get(item, "reqLicens"))
  {
    var regDt := Get(item, "regDt");
    var modified := FormatCompactDate(regDt);
    assert modified.Some? <==> regDt.Some? && |regDt.value| == 8;
    JobOpening(
      companyName := Get(item, "busplaName"),
      jobTitle := Get(item, "jobNm"),
      jobDescription := Show(Get(item, "jobNm")) + " 직무 채용",
      detailLink := Get(item, "detailLink"),
      jobType := Get(item, "empType"),
      salary := Get(item, "salary"),
      salaryType := Get(item, "salaryType"),
      location := Get(item, "compAddr"),
      requiredSkills := Skills(Get(item, "reqLicens")),
      requiredCareer := Get(item, "reqCareer"),
      requiredEducation := Get(item, "reqEduc"),
      lastModifiedDate := modified,
      termDateStr := Get(item, "termDate"))
  }

  /** A licence text without '/' is one skill, trimmed; a trailing '/' adds nothing. */
  lemma SkillsOfOneLicence(licence: string)
    requires '/' !in licence && Strip(licence) != ""
    ensures SplitStrip(licence + "/", '/') == [Strip(licence)]
  {
    var pieces := Split(licence + "/", '/');
    assert pieces == [licence, ""] by {
      SplitAfterHead(licence, '/', "");
      assert licence + "/" == licence + ['/'] + "";
      assert Split("", '/') == [""];
    }
    var blank := pieces[1];
    assert pieces[1..] == [blank];
    assert StripAll([blank]) == [] by {
      assert Strip(blank) == "";
      assert [blank][1..] == [];
    }
    assert StripAll(pieces) == [Strip(licence)] + StripAll([blank]);
  }

  /** `fetch_services_by_page`: the request it sends and the DTOs it yields.
      Every accepted item becomes one DTO, in order; any failure gives none. */
  method FetchServicesByPage(f: EmploymentFetcher, pageNum: int, event: Event, resp: Response<ListDoc>)
    returns (params: Params, dtos: seq<JobOpening>)
    ensures forall k :: k in params <==> k in {"serviceKey", "pageNo", "numOfRows"} || (k !in Reserved && k in event && EventTruthy(event[k]))
    ensures "serviceKey" in params && params["serviceKey"] == f.serviceKey
    ensures "pageNo" in params && params["pageNo"] == IntToString(pageNum)
    ensures "numOfRows" in params && params["numOfRows"] == IntToString(f.rowsPerPage)
    ensures forall k :: k !in Reserved && k in event && EventTruthy(event[k]) ==> params[k] == EventText(event[k])
    ensures !resp.Parsed? ==> dtos == []
    ensures resp.Parsed? ==>
      var items := AcceptedItems(resp.doc);
      |dtos| == |items| && forall i :: 0 <= i < |dtos| ==> dtos[i] == MapToDto(items[i])
  {
    var base := map["serviceKey" := f.serviceKey, "pageNo" := IntToString(pageNum), "numOfRows" := IntToString(f.rowsPerPage)];
    params := OverlayBlacklist(base, event, Reserved);
    match resp
    case Parsed(doc) =>
      var items := AcceptedItems(doc);
      dtos := seq(|items|, i requires 0 <= i < |items| => MapToDto(items[i]));
    case _ =>
      dtos := [];
  }
}
