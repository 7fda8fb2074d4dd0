/** The central-ministry welfare adapter. The current version reads XML and
    needs a `wantedList` element; the legacy version reads JSON. Both share the
    date, application-method and department rules defined here. */
module CentralFetcher {
  import opened Wrappers
  import opened Text
  import opened Dates
  import opened Dto
  import opened Fetch

  /** `CENTRAL_API_CONSTANT_PARAMS`. */
  const ConstantParams: Params := map["srchKeyCode" := "003", "orderBy" := "date", "trgterIndvdlArray" := "040"]

  /** Event keys the central API accepts. */
  const KnownParams: set<string> := {"searchWrd", "lifeArray", "trgterIndvdlArray", "intrsThemaArray", "age", "onapPsbltYn", "orderBy", "srchKeyCode"}

  const Online: string := "온라인 신청"
  const InPerson: string := "방문/전화 신청"

  datatype CentralWelfareFetcher = CentralWelfareFetcher(apiEndpoint: string, serviceKey: string, rowsPerPage: int) {

    /** `base_params`: the constants, the key, the page size and `callTp` "L" (list query). */
    function BaseParams(): (r: Params)
      ensures r.Keys == ConstantParams.Keys + {"serviceKey", "numOfRows", "callTp"}
      ensures r["serviceKey"] == serviceKey && r["numOfRows"] == IntToString(rowsPerPage) && r["callTp"] == "L"
      ensures forall k :: k in ConstantParams ==> r[k] == ConstantParams[k]
    {
      ConstantParams["serviceKey" := serviceKey]["numOfRows" := IntToString(rowsPerPage)]["callTp" := "L"]
    }
  }

  // ---------------------------------------------------------------------------
  // Mapping helpers shared by both versions
  // ---------------------------------------------------------------------------

  /** `_format_datetime`: text up to the first space when there is one; else an
      8-character text as YYYY-MM-DD; else the input unchanged. */
  function FormatDatetime(dt: Option<string>): (r: Option<string>)
    ensures Truthy(dt) && ' ' in dt.value ==>
      r.Some? && StartsWith(dt.value, r.value) && ' ' !in r.value && dt.value[|r.value|] == ' '
    ensures Truthy(dt) && ' ' !in dt.value && |dt.value| == 8 ==> r == FormatCompactDate(dt)
    ensures !(Truthy(dt) && (' ' in dt.value || |dt.value| == 8)) ==> r == dt
  {
    if Truthy(dt) && ' ' in dt.value then
      SplitHead(dt.value, ' ');
      Some(Split(dt.value, ' ')[0])
    else if Truthy(dt) && |dt.value| == 8 then
      FormatCompactDate(dt)
    else dt
  }

  /** A timestamp "YYYY-MM-DD hh:mm:ss" is cut back to its date. */
  lemma FormatDatetimeOfTimestamp(d: Date, time: string)
    requires ValidDate(d)
    ensures FormatDatetime(Some(FormatIso(d) + " " + time)) == Some(FormatIso(d))
  {
    var iso := FormatIso(d);
    assert iso == Pad4(d.year) + "-" + Pad2(d.month) + "-" + Pad2(d.day);
    assert forall i :: 0 <= i < |iso| ==> IsDigit(iso[i]) || iso[i] == '-';
    assert ' ' !in iso;
    SplitAfterHead(iso, ' ', time);
    assert (iso + " " + time)[|iso|] == ' ';
  }

  /** `_map_application_method`: 'Y' is online, 'N' is in person, anything else unknown. */
  function ApplicationMethod(onap: Option<string>): (r: string)
    ensures r == Online <==> onap == Some("Y")
    ensures r == InPerson <==> onap == Some("N")
    ensures r == NoInfo <==> onap != Some("Y") && onap != Some("N")
  {
    if onap == Some("Y") then Online
    else if onap == Some("N") then InPerson
    else NoInfo
  }

  /** `a or b` on two optional texts. */
  function OrElse(a: Option<string>, b: Option<string>): (r: Option<string>)
    ensures Truthy(a) ==> r == a
    ensures !Truthy(a) ==> r == b
  {
    if Truthy(a) then a else b
  }

  /** `_map_to_dto` of either version. The two read the interest themes from a
      different key (`intrsThemaNmArray` now, `intrsThemaArray` in the legacy copy). */
  function MapToDto(item: Item, themeKey: string): (r: WelfareService)
    ensures HasServId(item) ==> r.serviceId == item["servId"]
    ensures r.province == None && r.cityDistrict == None
    ensures r.departmentName == OrElse(Get(item, "jurMnofNm"), Get(item, "jurOrgNm"))
    ensures r.interestTheme == SplitText(Get(item, themeKey), ',')
    ensures r.applicationMethod == Some(ApplicationMethod(Get(item, "onapPsbltYn")))
    ensures r.lastModifiedDate == FormatDatetime(Get(item, "svcfrstRegTs"))
  {
    WelfareService(
      serviceId := Or(Get(item, "servId"), ""),
      serviceName := Get(item, "servNm"),
      serviceSummary := Get(item, "servDgst"),
      detailLink := Get(item, "servDtlLink"),
      departmentName := OrElse(Get(item, "jurMnofNm"), Get(item, "jurOrgNm")),
      province := None,
      cityDistrict := None,
      targetAudience := SplitText(Get(item, "trgterIndvdlArray"), ','),
      lifeCycle := SplitText(Get(item, "lifeArray"), ','),
      interestTheme := SplitText(Get(item, themeKey), ','),
      supportCycle := Get(item, "sprtCycNm"),
      supportType := Get(item, "srvPvsnNm"),
      applicationMethod := Some(ApplicationMethod(Get(item, "onapPsbltYn"))),
      lastModifiedDate := FormatDatetime(Get(item, "svcfrstRegTs")))
  }

  /** A central service has no region of its own: its text names the ministry,
      the organisation, or the central-ministry label, in that order of preference. */
  lemma CentralRegion(item: Item, themeKey: string)
    ensures Region(MapToDto(item, themeKey)) ==
      if Truthy(Get(item, "jurMnofNm")) then item["jurMnofNm"]
      else Or(Get(item, "jurOrgNm"), CentralMinistry)
  {
    assert Strip(" ") == "";
  }

  /** The current version's theme key and the legacy version's. */
  const ThemeKey: string := "intrsThemaNmArray"
  const LegacyThemeKey: string := "intrsThemaArray"

  /** The parameters the adapter sets itself are never event keys and never
      constants, so the event cannot overwrite them. */
  lemma ReservedKeys()
    ensures "pageNo" !in KnownParams && "serviceKey" !in KnownParams && "numOfRows" !in KnownParams && "callTp" !in KnownParams
    ensures "pageNo" !in ConstantParams && "serviceKey" !in ConstantParams && "numOfRows" !in ConstantParams && "callTp" !in ConstantParams
  {
  }

  /** The request of one page: base parameters, `pageNo`, and the eight-key
      whitelist overlay of the event (both versions build it the same way). */
  method RequestParams(f: CentralWelfareFetcher, pageNum: int, event: Event) returns (params: Params)
    ensures forall k :: k in params <==>
      k in ConstantParams || k in {"serviceKey", "numOfRows", "callTp", "pageNo"} || (k in KnownParams && k in event && NotBlank(event[k]))
    ensures "pageNo" in params && params["pageNo"] == IntToString(pageNum)
    ensures "serviceKey" in params && params["serviceKey"] == f.serviceKey
    ensures "numOfRows" in params && params["numOfRows"] == IntToString(f.rowsPerPage)
    ensures "callTp" in params && params["callTp"] == "L"
    ensures forall k :: k in KnownParams && k in event && NotBlank(event[k]) ==> params[k] == EventText(event[k])
    ensures forall k :: k in ConstantParams && !(k in event && NotBlank(event[k])) ==> params[k] == ConstantParams[k]
  {
    ReservedKeys();
    var base0 := f.BaseParams();
    var base := base0["pageNo" := IntToString(pageNum)];
    assert "pageNo" in base && "callTp" in base && "serviceKey" in base && "numOfRows" in base;
    assert base["serviceKey"] == base0["serviceKey"] && base["numOfRows"] == base0["numOfRows"] && base["callTp"] == base0["callTp"];
    assert forall k :: k in ConstantParams ==> base[k] == base0[k];
    params := OverlayWhitelist(base, event, KnownParams);
    assert params["pageNo"] == base["pageNo"] && params["callTp"] == base["callTp"];
    assert params["serviceKey"] == base["serviceKey"] && params["numOfRows"] == base["numOfRows"];
  }

  // ---------------------------------------------------------------------------
  // Current version (XML)
  // ---------------------------------------------------------------------------

  /** A parsed XML page: the `wantedList` element, when there is one. */
  datatype CentralDoc = CentralDoc(wantedList: Option<ListDoc>)

  /** `_parse_xml_to_items_central`: the items of `wantedList`, only when its
      `resultCode` is exactly "00". */
  function AcceptedItems(doc: CentralDoc): (r: seq<Item>)
    ensures r != [] ==> doc.wantedList.Some? && doc.wantedList.value.resultCode == Some("00")
    ensures doc.wantedList.Some? && doc.wantedList.value.resultCode == Some("00") ==> r == doc.wantedList.value.items
  {
    match doc.wantedList
    case None => []
    case Some(w) => if w.resultCode == Some("00") then w.items else []
  }

  /** `fetch_services_by_page` of the XML version: the request it sends and
      the DTOs it yields. Network and parse failures give no DTOs. */
  method FetchServicesByPage(f: CentralWelfareFetcher, pageNum: int, event: Event, resp: Response<CentralDoc>)
    returns (params: Params, dtos: seq<WelfareService>)
    ensures !resp.Parsed? ==> dtos == []
    ensures resp.Parsed? ==>
      var kept := WithServId(AcceptedItems(resp.doc));
      |dtos| == |kept| && forall i :: 0 <= i < |dtos| ==> dtos[i] == MapToDto(kept[i], ThemeKey)
  {
    params := RequestParams(f, pageNum, event);
    match resp
    case Parsed(doc) =>
      dtos := MapWithServId(AcceptedItems(doc), item => MapToDto(item, ThemeKey));
    case _ =>
      dtos := [];
  }

  // ---------------------------------------------------------------------------
  // Legacy version (JSON)
  // ---------------------------------------------------------------------------

  /** The decoded `wantedList` object: its `resultCode` and its `servList`. */
  datatype WantedList = WantedList(resultCode: Option<string>, servList: Option<seq<Item>>)

  /** A decoded JSON page; `None` when `wantedList` is absent or empty. */
  datatype JsonDoc = JsonDoc(wantedList: Option<WantedList>)

  /** `_parse_json_to_items`: `servList` (or nothing when it is absent), only
      when `resultCode` is exactly "00". */
  function LegacyAcceptedItems(doc: JsonDoc): (r: seq<Item>)
    ensures r != [] ==> doc.wantedList.Some? && doc.wantedList.value.resultCode == Some("00")
    ensures doc.wantedList.Some? && doc.wantedList.value.resultCode == Some("00") ==>
      r == doc.wantedList.value.servList.GetOr([])
  {
    match doc.wantedList
    case None => []
    case Some(w) => if w.resultCode == Some("00") then w.servList.GetOr([]) else []
  }

  /** `fetch_services_by_page` of the JSON version: the same request and id
      filter as the XML version. */
  method LegacyFetchServicesByPage(f: CentralWelfareFetcher, pageNum: int, event: Event, resp: Response<JsonDoc>)
    returns (params: Params, dtos: seq<WelfareService>)
    ensures !resp.Parsed? ==> dtos == []
    ensures resp.Parsed? ==>
      var kept := WithServId(LegacyAcceptedItems(resp.doc));
      |dtos| == |kept| && forall i :: 0 <= i < |dtos| ==> dtos[i] == MapToDto(kept[i], LegacyThemeKey)
  {
    params := RequestParams(f, pageNum, event);
    match resp
    case Parsed(doc) =>
      dtos := MapWithServId(LegacyAcceptedItems(doc), item => MapToDto(item, LegacyThemeKey));
    case _ =>
      dtos := [];
  }
}
