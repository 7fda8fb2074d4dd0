/** The legacy single-source adapter: the local API's result-code gate and
    request constants, but every event entry overrides the parameters and the
    raw items are returned without an id filter. */
module ApiFetcher {
  import opened Wrappers
  import opened Text
  import opened Fetch
  import LocalFetcher

  datatype ApiFetcher = ApiFetcher(apiEndpoint: string, serviceKey: string, rowsPerPage: int)

  /** `fetch_services_by_page`: the request it sends and the raw item maps of an
      accepted page; any event entry with a value, even `serviceKey` or
      `pageNo`, overrides the parameter of the same name. */
  method FetchServicesByPage(f: ApiFetcher, pageNum: int, event: Event, resp: Response<ListDoc>)
    returns (params: Params, items: seq<Item>)
    ensures forall k :: k in params <==>
      k in LocalFetcher.ConstantParams || k in {"serviceKey", "numOfRows", "pageNo"} || (k in event && NotBlank(event[k]))
    ensures forall k :: k in event && NotBlank(event[k]) ==> params[k] == EventText(event[k])
    ensures !("pageNo" in event && NotBlank(event["pageNo"])) ==> params["pageNo"] == IntToString(pageNum)
    ensures !("serviceKey" in event && NotBlank(event["serviceKey"])) ==> params["serviceKey"] == f.serviceKey
    ensures forall k :: k in LocalFetcher.ConstantParams && !(k in event && NotBlank(event[k])) ==>
      params[k] == LocalFetcher.ConstantParams[k]
    ensures !resp.Parsed? ==> items == []
    ensures resp.Parsed? ==> items == LocalFetcher.AcceptedItems(resp.doc)
  {
    LocalFetcher.ReservedKeys();
    var base := LocalFetcher.ConstantParams["serviceKey" := f.serviceKey]["numOfRows" := IntToString(f.rowsPerPage)]["pageNo" := IntToString(pageNum)];
    assert base["pageNo"] == IntToString(pageNum) && base["serviceKey"] == f.serviceKey;
    assert forall k :: k in LocalFetcher.ConstantParams ==> base[k] == LocalFetcher.ConstantParams[k];
    params := Overlay(base, event, AnyKey, NotNoneOrEmpty);
    match resp
    case Parsed(doc) =>
      items := LocalFetcher.AcceptedItems(doc);
    case _ =>
      items := [];
  }
}
