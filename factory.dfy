/** Composition: which sources a run covers, and the adapter, store, queue and
    page settings each source is wired to. */
module Factory {
  import opened Wrappers
  import opened Text
  import opened Fetch
  import LocalFetcher
  import CentralFetcher
  import EmploymentFetcher
  import Notification

  /** One source's settings: where its API is, and where its page loop starts. */
  datatype SourceSettings = SourceSettings(apiEndpoint: string, apiKey: string, rowsPerPage: int, startPage: int, pageLimit: int)

  /** The configuration the factory reads: the three sources and the two queues. */
  datatype Settings = Settings(
    local: SourceSettings,
    central: SourceSettings,
    employment: SourceSettings,
    welfareQueueUrl: string,
    employmentQueueUrl: string)

  datatype Fetcher =
    | Local(local: LocalFetcher.LocalWelfareFetcher)
    | Central(central: CentralFetcher.CentralWelfareFetcher)
    | Employment(employment: EmploymentFetcher.EmploymentFetcher)

  /** Which repository the source writes to. */
  datatype Store = WelfareStore | EmploymentStore

  /** What `get_dependencies` returns: the adapter, the repository, the
      publisher's queue and the page settings. */
  datatype Dependencies = Dependencies(fetcher: Fetcher, store: Store, queueUrl: string, pageConfig: map<string, int>)

  const KnownSources: set<string> := {"local", "central", "employment"}
  const DefaultSources: seq<EventValue> := [Str("local"), Str("central")]
  const UnknownSource: string := "알 수 없는 'source' 값입니다: "

  /** The settings of a known source. */
  function SettingsOf(source: string, cfg: Settings): SourceSettings
    requires source in KnownSources
  {
    if source == "local" then cfg.local
    else if source == "central" then cfg.central
    else cfg.employment
  }

  /** The queue a known source publishes to: welfare sources share one. */
  function QueueOf(source: string, cfg: Settings): string
    requires source in KnownSources
  {
    if source == "employment" then cfg.employmentQueueUrl else cfg.welfareQueueUrl
  }

  /** `page_cfg`: the source's own start page and page limit. */
  function PageConfig(s: SourceSettings): (r: map<string, int>)
    ensures r.Keys == {"start_page", "page_limit"}
    ensures r["start_page"] == s.startPage && r["page_limit"] == s.pageLimit
  {
    map["start_page" := s.startPage, "page_limit" := s.pageLimit]
  }

  /** A source value naming one of the three sources: only a string can be
      equal to one of them. */
  predicate Known(source: EventValue) {
    source.Str? && source.s in KnownSources
  }

  /** `get_dependencies`. The publisher is built first in each branch, so an
      empty queue URL fails with its message; an unknown source fails with
      the factory's own, naming the source as `str()` prints it. */
  function GetDependencies(source: EventValue, cfg: Settings): (r: Result<Dependencies, string>)
    ensures r.Success? <==> Known(source) && QueueOf(source.s, cfg) != ""
    ensures !Known(source) ==> r == Failure(UnknownSource + EventText(source))
    ensures Known(source) && QueueOf(source.s, cfg) == "" ==> r == Failure(Notification.MissingQueueUrl)
    ensures r.Success? ==>
      r.value.queueUrl == QueueOf(source.s, cfg) &&
      r.value.pageConfig == PageConfig(SettingsOf(source.s, cfg)) &&
      (r.value.store == EmploymentStore <==> source == Str("employment")) &&
      (r.value.fetcher.Local? <==> source == Str("local")) &&
      (r.value.fetcher.Central? <==> source == Str("central")) &&
      (r.value.fetcher.Employment? <==> source == Str("employment"))
  {
    if source == Str("local") || source == Str("central") then
      if cfg.welfareQueueUrl == "" then Failure(Notification.MissingQueueUrl)
      else if source == Str("local") then
        var s := cfg.local;
        Success(Dependencies(Local(LocalFetcher.LocalWelfareFetcher(s.apiEndpoint, s.apiKey, s.rowsPerPage)),
                             WelfareStore, cfg.welfareQueueUrl, PageConfig(s)))
      else
        var s := cfg.central;
        Success(Dependencies(Central(CentralFetcher.CentralWelfareFetcher(s.apiEndpoint, s.apiKey, s.rowsPerPage)),
                             WelfareStore, cfg.welfareQueueUrl, PageConfig(s)))
    else if source == Str("employment") then
      if cfg.employmentQueueUrl == "" then Failure(Notification.MissingQueueUrl)
      else
        var s := cfg.employment;
        Success(Dependencies(Employment(EmploymentFetcher.EmploymentFetcher(s.apiEndpoint, s.apiKey, s.rowsPerPage)),
                             EmploymentStore, cfg.employmentQueueUrl, PageConfig(s)))
    else
      Failure(UnknownSource + EventText(source))
  }

  /** `get_sources_to_run`: the event's `source` alone when it is given,
      otherwise the two welfare sources. */
  function GetSourcesToRun(event: Event): (r: seq<EventValue>)
    ensures "source" in event && EventTruthy(event["source"]) ==> r == [event["source"]]
    ensures !("source" in event && EventTruthy(event["source"])) ==> r == DefaultSources
  {
    if "source" in event && EventTruthy(event["source"]) then [event["source"]] else DefaultSources
  }

  /** A run without a `source` covers the welfare sources only: each of them
      is wired to the welfare store and the welfare queue, and the
      employment source is never among them. */
  lemma DefaultRunIsWelfare(event: Event, cfg: Settings)
    requires !("source" in event && EventTruthy(event["source"]))
    requires cfg.welfareQueueUrl != ""
    ensures Str("employment") !in GetSourcesToRun(event)
    ensures forall s :: s in GetSourcesToRun(event) ==>
      GetDependencies(s, cfg).Success? && GetDependencies(s, cfg).value.store == WelfareStore &&
      GetDependencies(s, cfg).value.queueUrl == cfg.welfareQueueUrl
  {
    assert GetSourcesToRun(event) == [Str("local"), Str("central")];
  }

  /** Every source a run covers is either one of the three known ones, and
      then it is wired up, or it fails naming itself. */
  lemma RunSourcesResolve(event: Event, cfg: Settings, s: EventValue)
    requires cfg.welfareQueueUrl != "" && cfg.employmentQueueUrl != ""
    requires s in GetSourcesToRun(event)
    ensures GetDependencies(s, cfg).Success? || GetDependencies(s, cfg) == Failure(UnknownSource + EventText(s))
    ensures GetDependencies(s, cfg).Failure? ==> s == event["source"]
  {
  }
}
