/** The normalised records every source adapter produces (`CommonServiceDTO`,
    `JobOpeningDTO`) and the text each of them hands to the embedding model. */
module Dto {
  import opened Wrappers
  import opened Text

  const NoInfo: string := "정보 없음"
  const CentralMinistry: string := "중앙부처"

  /** `CommonServiceDTO`: one welfare service. Optional fields hold what
      `item.get(...)` returned; adapters only build one for a non-empty id. */
  datatype WelfareService = WelfareService(
    serviceId: string,
    serviceName: Option<string>,
    serviceSummary: Option<string>,
    detailLink: Option<string>,
    departmentName: Option<string>,
    province: Option<string>,
    cityDistrict: Option<string>,
    targetAudience: seq<string>,
    lifeCycle: seq<string>,
    interestTheme: seq<string>,
    supportCycle: Option<string>,
    supportType: Option<string>,
    applicationMethod: Option<string>,
    lastModifiedDate: Option<string>)

  /** `JobOpeningDTO`: one job posting. It has no `service_id` field. */
  datatype JobOpening = JobOpening(
    companyName: Option<string>,
    jobTitle: Option<string>,
    jobDescription: string,
    detailLink: Option<string>,
    jobType: Option<string>,
    salary: Option<string>,
    salaryType: Option<string>,
    location: Option<string>,
    requiredSkills: seq<string>,
    requiredCareer: Option<string>,
    requiredEducation: Option<string>,
    lastModifiedDate: Option<string>,
    termDateStr: Option<string>)

  /** What the orchestrator and the publisher receive: either kind of record. */
  datatype Dto = Welfare(service: WelfareService) | Job(job: JobOpening)

  /** A text's embedding vector (`List[float]`). */
  type Embedding = seq<real>

  /** `hasattr(dto, 'service_id')` and its value. */
  function ServiceId(d: Dto): (r: Option<string>)
    ensures r.Some? <==> d.Welfare?
  {
    match d
    case Welfare(w) => Some(w.serviceId)
    case Job(_) => None
  }

  /** The dataclass constructor with only the four required fields: list fields
      default to empty and optional fields to `None`, so every other phrase of
      its text is a fallback. */
  function NewWelfareService(id: string, name: Option<string>, summary: Option<string>, link: Option<string>): (r: WelfareService)
    ensures r.serviceId == id && r.serviceName == name && r.serviceSummary == summary && r.detailLink == link
    ensures Region(r) == CentralMinistry && AudienceText(r.targetAudience) == NoInfo
    ensures SupportSentence(r) == NoInfoSupport
    ensures r.lifeCycle == [] && r.interestTheme == [] && r.lastModifiedDate == None
  {
    var r := WelfareService(id, name, summary, link, None, None, None, [], [], [], None, None, None, None);
    SupportFallbacks(r);
    r
  }

  // ---------------------------------------------------------------------------
  // CommonServiceDTO.get_text_for_embedding
  // ---------------------------------------------------------------------------

  /** The region phrase: "province city" stripped, else the department, else
      the central-ministry label. It is never empty. */
  function Region(w: WelfareService): (r: string)
    ensures r != ""
    ensures Strip(Or(w.province, "") + " " + Or(w.cityDistrict, "")) != "" ==>
              r == Strip(Or(w.province, "") + " " + Or(w.cityDistrict, ""))
    ensures !Truthy(w.province) && !Truthy(w.cityDistrict) ==> r == Or(w.departmentName, CentralMinistry)
  {
    var region := Strip(Or(w.province, "") + " " + Or(w.cityDistrict, ""));
    assert !Truthy(w.province) && !Truthy(w.cityDistrict) ==> region == Strip(" ") == "";
    if region == "" then Or(w.departmentName, CentralMinistry) else region
  }

  /** `', '.join(target_audience) or '정보 없음'`. */
  function AudienceText(audience: seq<string>): (r: string)
    ensures r != ""
    ensures audience == [] ==> r == NoInfo
    ensures audience != [] && audience[0] != "" ==> r == Join(", ", audience)
  {
    JoinEmpty(", ", audience);
    var joined := Join(", ", audience);
    if joined == "" then NoInfo else joined
  }

  /** First sentence: who the service is for and where. */
  function AudienceSentence(w: WelfareService): (r: string)
    ensures StartsWith(r, "이 복지 서비스는 " + Region(w) + "의 " + AudienceText(w.targetAudience))
  {
    var head := "이 복지 서비스는 " + Region(w) + "의 " + AudienceText(w.targetAudience);
    assert (head + "를 대상으로 합니다. ")[..|head|] == head;
    head + "를 대상으로 합니다. "
  }

  /** Second and third sentences: support cycle, form and how to apply. */
  function SupportSentence(w: WelfareService): string {
    "지원 주기는 " + Or(w.supportCycle, NoInfo) + "이며, " + Or(w.supportType, NoInfo) + " 형태로 제공됩니다. "
    + "신청은 " + Or(w.applicationMethod, NoInfo) + " 방식으로 할 수 있습니다. "
  }

  /** Last sentence: names the service in single quotes and ends with the summary. */
  function NameSentence(w: WelfareService): (r: string)
    ensures Contains(r, "'" + Show(w.serviceName) + "'")
    ensures EndsWith(r, Show(w.serviceSummary))
  {
    var quoted := "'" + Show(w.serviceName) + "'";
    var tail := "이고, 주요 내용은 다음과 같습니다: " + Show(w.serviceSummary);
    Pieces("서비스명은 ", quoted, tail);
    Pieces("서비스명은 " + quoted + "이고, 주요 내용은 다음과 같습니다: ", "", Show(w.serviceSummary));
    "서비스명은 " + quoted + tail
  }

  /** The welfare text: the audience sentence, the support sentences and the
      name sentence, in that order. */
  function EmbeddingText(w: WelfareService): (r: string)
    ensures StartsWith(r, AudienceSentence(w))
    ensures Contains(r, SupportSentence(w))
    ensures EndsWith(r, NameSentence(w))
  {
    Pieces(AudienceSentence(w), SupportSentence(w), NameSentence(w));
    AudienceSentence(w) + SupportSentence(w) + NameSentence(w)
  }

  /** The welfare text opens with the region and audience, names the service
      in quotes, and ends with the summary. */
  lemma EmbeddingTextParts(w: WelfareService)
    ensures StartsWith(EmbeddingText(w), "이 복지 서비스는 " + Region(w) + "의 " + AudienceText(w.targetAudience))
    ensures Contains(EmbeddingText(w), "'" + Show(w.serviceName) + "'")
    ensures EndsWith(EmbeddingText(w), Show(w.serviceSummary))
  {
    var a, b, c := AudienceSentence(w), SupportSentence(w), NameSentence(w);
    StartsWithTrans(a + b + c, a, "이 복지 서비스는 " + Region(w) + "의 " + AudienceText(w.targetAudience));
    EndsWithTrans(a + b + c, c, Show(w.serviceSummary));
    SuffixContains(a + b + c, c);
    ContainsTrans(a + b + c, c, "'" + Show(w.serviceName) + "'");
  }

  const NoInfoSupport: string := "지원 주기는 " + NoInfo + "이며, " + NoInfo + " 형태로 제공됩니다. "
    + "신청은 " + NoInfo + " 방식으로 할 수 있습니다. "

  /** Missing cycle, type and method each read as '정보 없음'. */
  lemma SupportFallbacks(w: WelfareService)
    requires !Truthy(w.supportCycle) && !Truthy(w.supportType) && !Truthy(w.applicationMethod)
    ensures SupportSentence(w) == NoInfoSupport
  {
  }

  // ---------------------------------------------------------------------------
  // JobOpeningDTO.get_text_for_embedding
  // ---------------------------------------------------------------------------

  /** `f"{salary_type or ''} {salary or ''}".strip()`, or '정보 없음' when that is empty. */
  function SalaryText(j: JobOpening): (r: string)
    ensures r != ""
    ensures Strip(Or(j.salaryType, "") + " " + Or(j.salary, "")) != "" ==>
              r == Strip(Or(j.salaryType, "") + " " + Or(j.salary, ""))
    ensures Strip(Or(j.salaryType, "") + " " + Or(j.salary, "")) == "" ==> r == NoInfo
    ensures !Truthy(j.salaryType) && !Truthy(j.salary) ==> r == NoInfo
  {
    var info := Strip(Or(j.salaryType, "") + " " + Or(j.salary, ""));
    assert !Truthy(j.salaryType) && !Truthy(j.salary) ==> info == Strip(" ") == "";
    if info == "" then NoInfo else info
  }

  /** A trimmed pay type and a trimmed amount read "type amount". */
  lemma SalaryValue(j: JobOpening, t: string, a: string)
    requires j.salaryType == Some(t) && j.salary == Some(a) && Trimmed(t) && Trimmed(a)
    ensures SalaryText(j) == t + " " + a
  {
    var text := t + " " + a;
    assert text[0] == t[0] && text[|text| - 1] == a[|a| - 1];
    StripUnchanged(text);
  }

  /** The skills sentence, present only when skills are listed; it ends with '.'. */
  function SkillsSentence(skills: seq<string>): (r: string)
    ensures r == "" <==> skills == []
    ensures r != "" ==> r[|r| - 1] == '.'
  {
    if skills != [] then "요구 기술은 " + Join(", ", skills) + "입니다." else ""
  }

  /** Company and place of work. */
  function CompanySentence(j: JobOpening): string {
    "회사명은 '" + Show(j.companyName) + "'이며, " + Or(j.location, "지역 미정") + "에서 근무합니다. "
  }

  /** Title in single quotes and job type. */
  function RoleSentence(j: JobOpening): (r: string)
    ensures Contains(r, "'" + Show(j.jobTitle) + "'")
  {
    var quoted := "'" + Show(j.jobTitle) + "'";
    Pieces("채용 직무는 ", quoted, "(" + Or(j.jobType, "유형 미정") + ")입니다. ");
    "채용 직무는 " + quoted + ("(" + Or(j.jobType, "유형 미정") + ")입니다. ")
  }

  /** Pay, then career and education requirements; it ends with a space. */
  function TermsSentence(j: JobOpening): (r: string)
    ensures r != "" && r[|r| - 1] == ' '
  {
    "급여는 " + SalaryText(j) + "입니다. "
    + "요구 경력은 " + Or(j.requiredCareer, "무관") + "이며, 요구 학력은 " + Or(j.requiredEducation, "무관") + "입니다. "
  }

  /** A missing location and job type read '지역 미정' and '유형 미정'. */
  lemma JobPlaceFallbacks(j: JobOpening)
    requires !Truthy(j.location) && !Truthy(j.jobType)
    ensures CompanySentence(j) == "회사명은 '" + Show(j.companyName) + "'이며, 지역 미정에서 근무합니다. "
    ensures RoleSentence(j) == "채용 직무는 '" + Show(j.jobTitle) + "'(유형 미정)입니다. "
  {
  }

  /** A given location and job type appear as they are. */
  lemma JobPlaceGiven(j: JobOpening)
    requires Truthy(j.location) && Truthy(j.jobType)
    ensures CompanySentence(j) == "회사명은 '" + Show(j.companyName) + "'이며, " + j.location.value + "에서 근무합니다. "
    ensures RoleSentence(j) == "채용 직무는 '" + Show(j.jobTitle) + "'(" + j.jobType.value + ")입니다. "
  {
  }

  /** The job text: company, role, terms, then the skills sentence if any. */
  function JobEmbeddingText(j: JobOpening): string {
    CompanySentence(j) + RoleSentence(j) + TermsSentence(j) + SkillsSentence(j.requiredSkills)
  }

  /** The job text quotes the title. */
  lemma JobTextQuotesTitle(j: JobOpening)
    ensures Contains(JobEmbeddingText(j), "'" + Show(j.jobTitle) + "'")
  {
    var a, b, t, s := CompanySentence(j), RoleSentence(j), TermsSentence(j), SkillsSentence(j.requiredSkills);
    var r := JobEmbeddingText(j);
    assert r == a + b + (t + s);
    Pieces(a, b, t + s);
    ContainsTrans(r, b, "'" + Show(j.jobTitle) + "'");
  }

  /** The job text ends with the skills sentence, and it ends with a space
      exactly when no skills are listed. */
  lemma JobTextEnding(j: JobOpening)
    ensures EndsWith(JobEmbeddingText(j), SkillsSentence(j.requiredSkills))
    ensures var r := JobEmbeddingText(j); |r| > 0 && (r[|r| - 1] == ' ' <==> j.requiredSkills == [])
  {
    var h, t, s := CompanySentence(j) + RoleSentence(j), TermsSentence(j), SkillsSentence(j.requiredSkills);
    var r := JobEmbeddingText(j);
    assert r == h + t + s;
    assert r[|r| - |s|..] == s;
    if s != "" {
      assert r[|r| - 1] == s[|s| - 1];
    } else {
      assert r[|r| - 1] == t[|t| - 1];
    }
  }

  /** With every optional field missing, the terms use each fallback:
      '정보 없음' for pay and '무관' for career and education. */
  lemma JobTermsFallbacks(j: JobOpening)
    requires !Truthy(j.salary) && !Truthy(j.salaryType) && !Truthy(j.requiredCareer) && !Truthy(j.requiredEducation)
    ensures TermsSentence(j) == "급여는 " + NoInfo + "입니다. 요구 경력은 무관이며, 요구 학력은 무관입니다. "
  {
    var pay, career, education := SalaryText(j), Or(j.requiredCareer, "무관"), Or(j.requiredEducation, "무관");
    assert pay == NoInfo && career == "무관" && education == "무관";
  }

  /** The text the orchestrator embeds for either kind of record. */
  function TextForEmbedding(d: Dto): string {
    match d
    case Welfare(w) => EmbeddingText(w)
    case Job(j) => JobEmbeddingText(j)
  }

  // ---------------------------------------------------------------------------
  // Composite key of a job posting
  // ---------------------------------------------------------------------------

  /** `company|title|term_date_str|salary`, each missing or empty part as ''. */
  function KeyOf(company: Option<string>, title: Option<string>, term: Option<string>, salary: Option<string>): string {
    Or(company, "") + "|" + Or(title, "") + "|" + Or(term, "") + "|" + Or(salary, "")
  }

  /** The dedup identity of a job posting. */
  function CompositeKey(j: JobOpening): string {
    KeyOf(j.companyName, j.jobTitle, j.termDateStr, j.salary)
  }

  /** When no part contains '|', the key splits back into its four parts. */
  lemma KeyOfSplits(company: Option<string>, title: Option<string>, term: Option<string>, salary: Option<string>)
    requires '|' !in Or(company, "") && '|' !in Or(title, "") && '|' !in Or(term, "") && '|' !in Or(salary, "")
    ensures Split(KeyOf(company, title, term, salary), '|') == [Or(company, ""), Or(title, ""), Or(term, ""), Or(salary, "")]
  {
    SplitFour(Or(company, ""), Or(title, ""), Or(term, ""), Or(salary, ""));
  }

  /** Four '|'-free texts joined by '|' split back into the four. */
  lemma SplitFour(c: string, t: string, d: string, s: string)
    requires '|' !in c && '|' !in t && '|' !in d && '|' !in s
    ensures Split(c + "|" + t + "|" + d + "|" + s, '|') == [c, t, d, s]
  {
    NestFour(c, t, d, s);
    SplitNested(c, t, d, s);
  }

  /** The same split, with the joins nested to the right. */
  lemma SplitNested(c: string, t: string, d: string, s: string)
    requires '|' !in c && '|' !in t && '|' !in d && '|' !in s
    ensures Split(c + ['|'] + (t + ['|'] + (d + ['|'] + s)), '|') == [c, t, d, s]
  {
    SplitWhole(s, '|');
    SplitAfterHead(d, '|', s);
    SplitAfterHead(t, '|', d + ['|'] + s);
    SplitAfterHead(c, '|', t + ['|'] + (d + ['|'] + s));
  }

  lemma NestFour(c: string, t: string, d: string, s: string)
    ensures c + "|" + t + "|" + d + "|" + s == c + ['|'] + (t + ['|'] + (d + ['|'] + s))
  {
  }

  /** Two postings whose parts contain no '|' have equal keys exactly when their
      company, title, term and salary agree (with `None` and '' not told apart). */
  lemma CompositeKeyInjective(a: JobOpening, b: JobOpening)
    requires '|' !in Or(a.companyName, "") && '|' !in Or(a.jobTitle, "") && '|' !in Or(a.termDateStr, "") && '|' !in Or(a.salary, "")
    requires '|' !in Or(b.companyName, "") && '|' !in Or(b.jobTitle, "") && '|' !in Or(b.termDateStr, "") && '|' !in Or(b.salary, "")
    ensures CompositeKey(a) == CompositeKey(b) <==>
      (Or(a.companyName, "") == Or(b.companyName, "") && Or(a.jobTitle, "") == Or(b.jobTitle, "")
       && Or(a.termDateStr, "") == Or(b.termDateStr, "") && Or(a.salary, "") == Or(b.salary, ""))
  {
    KeyOfSplits(a.companyName, a.jobTitle, a.termDateStr, a.salary);
    KeyOfSplits(b.companyName, b.jobTitle, b.termDateStr, b.salary);
  }
}
