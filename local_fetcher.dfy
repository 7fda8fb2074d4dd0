/** The local-government welfare adapter (XML): result-code gate, request
    parameters with a six-key whitelist, and the mapping of each item with an
    id to a `WelfareService`. The legacy copy under `fetchers/` behaves the same. */
module LocalFetcher {
  import opened Wrappers
  import opened Text
  import opened Dates
  import opened Dto
  import opened Fetch

  /** `API_CONSTANT_PARAMS`. */
  const ConstantParams: Params := map["trgterIndvdlArray" := "040", "srchKeyCode" := "003", "arrgOrd" := "001"]

  /** Event keys the local API accepts. */
  const KnownParams: set<string> := {"trgterIndvdlArray", "srchKeyCode", "arrgOrd", "searchWrd", "lifeArray", "intrsThemaArray"}

  /** Result codes the local API uses for success. */
  const SuccessCodes: set<string> := {"0", "00", "SUCCESS"}

  datatype LocalWelfareFetcher = LocalWelfareFetcher(apiEndpoint: string, serviceKey: string, rowsPerPage: int) {

    /** `base_params`: the constants plus the service key and the page size. */
    function BaseParams(): (r: Params)
      ensures r.Keys == ConstantParams.Keys + {"serviceKey", "numOfRows"}
      ensures r["serviceKey"] == serviceKey && r["numOfRows"] == IntToString(rowsPerPage)
      ensures forall k :: k in ConstantParams ==> r[k] == ConstantParams[k]
    {
      ConstantParams["serviceKey" := serviceKey]["numOfRows" := IntToString(rowsPerPage)]
    }
  }

  /** `_parse_xml_to_items` on a parsed document: its items when `resultCode`
      (absent or empty read as "") is a success code, and nothing otherwise. */
  function AcceptedItems(doc: ListDoc): (r: seq<Item>)
    ensures Or(doc.resultCode, "") in SuccessCodes ==> r == doc.items
    ensures Or(doc.resultCode, "") !in SuccessCodes ==> r == []
  {
    if Or(doc.resultCode, "") in SuccessCodes then doc.items else []
  }

  /** `_map_to_dto`: field renaming, comma lists split, `lastModYmd` reformatted. */
  function MapToDto(item: Item): (r: WelfareService)
    ensures HasServId(item) ==> r.serviceId == item["servId"]
    ensures r.province == Get(item, "ctpvNm") && r.cityDistrict == Get(item, "sggNm")
    ensures r.departmentName == Get(item, "bizChrDeptNm")
    ensures forall p :: p in r.targetAudience + r.lifeCycle + r.interestTheme ==> p != "" && ',' !in p
    ensures r.lastModifiedDate.Some? <==> "lastModYmd" in item && |item["lastModYmd"]| == 8
  {
    WelfareService(
      serviceId := Or(Get(item, "servId"), ""),
      serviceName := Get(item, "servNm"),
      serviceSummary := Get(item, "servDgst"),
      detailLink := Get(item, "servDtlLink"),
      departmentName := Get(item, "bizChrDeptNm"),
      province := Get(item, "ctpvNm"),
      cityDistrict := Get(item, "sggNm"),
      targetAudience := SplitText(Get(item, "trgterIndvdlNmArray"), ','),
      lifeCycle := SplitText(Get(item, "lifeNmArray"), ','),
      interestTheme := SplitText(Get(item, "intrsThemaNmArray"), ','),
      supportCycle := Get(item, "sprtCycNm"),
      supportType := Get(item, "srvPvsnNm"),
      applicationMethod := Get(item, "aplyMtdNm"),
      lastModifiedDate := FormatCompactDate(Get(item, "lastModYmd")))
  }

  /** The DTO of an item with no province or district is placed in its
      department, or in the central-ministry label when that is missing too. */
  lemma MapToDtoRegion(item: Item)
    requires !Truthy(Get(item, "ctpvNm")) && !Truthy(Get(item, "sggNm"))
    ensures Region(MapToDto(item)) == Or(Get(item, "bizChrDeptNm"), CentralMinistry)
  {
  }

  /** The parameters the adapter sets itself are never event keys and never
      constants, so the event cannot overwrite them. */
  lemma ReservedKeys()
    ensures "pageNo" !in KnownParams && "serviceKey" !in KnownParams && "numOfRows" !in KnownParams
    ensures "pageNo" !in ConstantParams && "serviceKey" !in ConstantParams && "numOfRows" !in ConstantParams
  {
  }

  /** The request of one page: base parameters, `pageNo`, and the six-key
      whitelist overlay of the event. */
  method RequestParams(f: LocalWelfareFetcher, pageNum: int, event: Event) returns (params: Params)
    ensures forall k :: k in params <==>
      k in ConstantParams || k in {"serviceKey", "numOfRows", "pageNo"} || (k in KnownParams && k in event && NotBlank(event[k]))
    ensures "pageNo" in params && params["pageNo"] == IntToString(pageNum)
    ensures "serviceKey" in params && params["serviceKey"] == f.serviceKey
    ensures "numOfRows" in params && params["numOfRows"] == IntToString(f.rowsPerPage)
    ensures forall k :: k in KnownParams && k in event && NotBlank(event[k]) ==> params[k] == EventText(event[k])
    ensures forall k :: k in ConstantParams && !(k in event && NotBlank(event[k])) ==> params[k] == ConstantParams[k]
  {
    ReservedKeys();
    var base0 := f.BaseParams();
    var base := base0["pageNo" := IntToString(pageNum)];
    assert "pageNo" in base && "serviceKey" in base && "numOfRows" in base;
    assert base["serviceKey"] == base0["serviceKey"] && base["numOfRows"] == base0["numOfRows"];
    assert forall k :: k in ConstantParams ==> base[k] == base0[k];
    params := OverlayWhitelist(base, event, KnownParams);
    assert params["pageNo"] == base["pageNo"];
    assert params["serviceKey"] == base["serviceKey"] && params["numOfRows"] == base["numOfRows"];
  }

  /** `fetch_services_by_page`: the request parameters of the page and the DTOs
      it yields. Network and parse failures give no DTOs. */
  method FetchServicesByPage(f: LocalWelfareFetcher, pageNum: int, event: Event, resp: Response<ListDoc>)
    returns (params: Params, dtos: seq<WelfareService>)
    ensures forall k :: k in params <==>
      k in ConstantParams || k in {"serviceKey", "numOfRows", "pageNo"} || (k in KnownParams && k in event && NotBlank(event[k]))
    ensures "pageNo" in params && params["pageNo"] == IntToString(pageNum)
    ensures "serviceKey" in params && params["serviceKey"] == f.serviceKey
    ensures "numOfRows" in params && params["numOfRows"] == IntToString(f.rowsPerPage)
    ensures forall k :: k in KnownParams && k in event && NotBlank(event[k]) ==> params[k] == EventText(event[k])
    ensures forall k :: k in ConstantParams && !(k in event && NotBlank(event[k])) ==> params[k] == ConstantParams[k]
    ensures !resp.Parsed? ==> dtos == []
    ensures resp.Parsed? ==>
      var kept := WithServId(AcceptedItems(resp.doc));
      |dtos| == |kept| && forall i :: 0 <= i < |dtos| ==> dtos[i] == MapToDto(kept[i])
  {
    params := RequestParams(f, pageNum, event);
    match resp
    case Parsed(doc) =>
      dtos := MapWithServId(AcceptedItems(doc), MapToDto);
    case _ =>
      dtos := [];
  }
}
