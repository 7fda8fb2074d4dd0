# Welfare ingestion and chatbot helpers, modelled in Dafny

This project models the data path of the Caring_Lambda repository. Welfare services and job postings come in from public APIs and become vector-searchable rows. Three chatbot helpers then turn those rows into answers.

- **Ingestor application** (`welfare-data-ingestor/app`):
  - Three fetchers turn one parsed API page into DTOs: local governments (XML), central government (XML) and employment (XML).
  - `IngestProcessor.run_for_fetcher` pages through a source. It drops services already stored, embeds the new ones and inserts them in one batch. It publishes them to a queue in chunks of ten, then commits or rolls back page by page.
  - `factory.py` decides which sources run and wires each source to its repository and queue.
  - The database is a `Connection` class. Its `table` is what the connection sees, including uncommitted rows, and `committed` is what is durable. A statement counter and a fault table decide which statement raises, and whether the error is a driver error or an unexpected one, so every `except` branch of the source can be reached.
- **Legacy pipeline**:
  - `lambda_function.handler` runs a fixed page range with one insert and one embedding call per item, and commits per page.
  - Its helpers are `api_fetcher`, `embedding_service`, `repository`, the `fetchers/` adapters and `common_dto`.
  - `fetchers/local_fetcher.py` and `common_dto.py` are textual copies of the application's versions, so they are modelled by the same members.
- **Chatbot helpers**:
  - Request parsing and the response shape (`data_processor.py`).
  - Normalising, location-based reranking and context formatting of search results (`util/response_builder.py`).
  - Session lists and paged history (`domain/chat_logic.py`).
  - The queue worker that logs chat turns with their embeddings (`service/worker_service.py`).

Files and modules:

| file | module |
|---|---|
| `wrappers.dfy` | `Option`, `Result` and `Outcome` (a value returned, or an exception raised) |
| `text.dfy` | Python string behaviour: `or`, `str.split`, `str.strip`, `str(int)` and the f-string of `None` |
| `dates.dfy` | `YYYYMMDD` and ISO dates with the validity check of `date.fromisoformat` |
| `dto.dfy` | `CommonServiceDTO`, `JobOpeningDTO` and their embedding texts |
| `fetch.dfy` | parameter overlays and the id filter the fetchers share |
| `local_fetcher.dfy`, `central_fetcher.dfy`, `employment_fetcher.dfy`, `api_fetcher.dfy` | the source adapters |
| `connection.dfy` | `BaseRepository` as a transaction over a row table |
| `welfare_repository.dfy`, `employment_repository.dfy` | the two repositories |
| `notification.dfy` | `NotificationService` and its queue |
| `processor.dfy`, `factory.dfy` | the application pipeline |
| `legacy_embedding.dfy`, `legacy_repository.dfy`, `legacy_handler.dfy` | the legacy pipeline |
| `json.dfy`, `data_processor.dfy`, `response_builder.dfy`, `chat_logic.dfy`, `worker_service.dfy` | the chatbot helpers |

## Model

| member | source | states |
|---|---|---|
| Text.Or | welfare-data-ingestor/app/dto/common_dto.py:33-35 | Python's `x or d` on an optional text: the text when truthy, else the default; never empty with a non-empty default |
| Text.Show | welfare-data-ingestor/app/dto/common_dto.py:41 | an f-string renders a present text as itself |
| Text.Split | welfare-data-ingestor/app/fetcher/local_fetcher.py:94 | `s.split(sep)` always has at least one piece |
| Text.JoinSplit | welfare-data-ingestor/app/fetcher/local_fetcher.py:94 | joining the pieces of a split with the separator gives the text back |
| Text.SplitPiecesFree | welfare-data-ingestor/app/fetcher/local_fetcher.py:94 | no piece of a split contains the separator |
| Text.ConcatSplit | welfare-data-ingestor/app/fetcher/local_fetcher.py:94 | the pieces, concatenated, are the text without its separators |
| Text.SplitHead | welfare-data-ingestor/app/fetcher/central_fetcher.py:103-104 | when the separator occurs, the first piece is the text up to its first occurrence |
| Text.ConcatNonEmpty | welfare-data-ingestor/app/fetcher/local_fetcher.py:94 | `filter(None, ...)` drops only empty pieces, so the concatenation is unchanged |
| Text.SplitText | welfare-data-ingestor/app/fetcher/local_fetcher.py:90-94 | no piece for a missing or empty text; otherwise the pieces are the non-empty parts of the text split at the separator, each separator-free, and together they are the text without its separators |
| Text.Strip | welfare-data-ingestor/app/dto/common_dto.py:33 | `s.strip()` leaves no whitespace at either end and never lengthens |
| Text.StripEmpty | welfare-data-ingestor/app/dto/common_dto.py:33-34 | a stripped text is empty exactly when the text is all whitespace |
| Text.StripUnchanged | chatbot/domain/chat_logic.py:37 | stripping a text with no whitespace at its ends changes nothing |
| Text.SplitStrip | welfare-data-ingestor/app/fetcher/employment_fetcher.py:70 | `[s.strip() for s in t.split(sep) if s.strip()]`: every piece trimmed, non-empty and separator-free |
| Text.SplitStripWhole | welfare-data-ingestor/app/fetcher/employment_fetcher.py:70 | a text without the separator gives its stripped self, or nothing when that is empty |
| Text.IntToString | welfare-data-ingestor/app/fetcher/local_fetcher.py:74 | `str(i)`: the decimal digits, with a leading '-' for a negative number |
| Text.ParseNatToString | welfare-data-ingestor/app/fetcher/local_fetcher.py:127 | `int(str(n)) == n` for every natural number |
| Text.IntToStringInjective | welfare-data-ingestor/app/fetcher/local_fetcher.py:127 | different page numbers give different `pageNo` texts |
| Dates.BeforeTrichotomy | welfare-data-ingestor/app/repository/employment_repository.py:36 | the date comparison is a strict total order |
| Dates.FormatIso | welfare-data-ingestor/app/repository/employment_repository.py:63-64 | `isoformat` prints ten characters with dashes at positions 4 and 7 |
| Dates.ParseIsoDate | welfare-data-ingestor/app/repository/employment_repository.py:63-64 | `fromisoformat` accepts only a valid date in YYYY-MM-DD form |
| Dates.FormatParseIso | welfare-data-ingestor/app/repository/employment_repository.py:63-64 | whatever `fromisoformat` accepts is exactly what `isoformat` prints for it |
| Dates.ParseFormatIso | welfare-data-ingestor/app/repository/employment_repository.py:63-64 | `fromisoformat` reads back every printed valid date |
| Dates.FormatCompactDate | welfare-data-ingestor/app/fetcher/local_fetcher.py:81-88 | a date exactly for an 8-character text, printed as YYYY-MM-DD with the original characters around the dashes |
| Fetch.Get | welfare-data-ingestor/app/fetcher/local_fetcher.py:98 | `item.get(key)`: present exactly when the key is, with the item's value |
| Fetch.Overlay | welfare-data-ingestor/api_fetcher.py:70-74 | every event entry whose key is admitted and whose value passes the adapter's test sets its key to the value's `str()` text; every other parameter keeps its value; no other key appears |
| Fetch.OverlayBlacklist | welfare-data-ingestor/app/fetcher/employment_fetcher.py:96-99 | under a blacklist with the `if v` test, reserved parameters keep their base value and only truthy entries outside it are added, as their `str()` text |
| Fetch.EventTestsAgree | welfare-data-ingestor/app/fetcher/employment_fetcher.py:98 | `if v` and `v not in (None, "")` agree on null and strings; a falsy value of another kind, such as `0`, passes only the second |
| Fetch.OverlayWhitelist | welfare-data-ingestor/app/fetcher/local_fetcher.py:130-144 | under a whitelist, parameters outside it keep their base value whatever the event holds, and only whitelisted entries whose value is neither `None` nor "" are added |
| Fetch.WithServId | welfare-data-ingestor/app/fetcher/local_fetcher.py:159-162 | exactly the items with a truthy `servId` are kept |
| Fetch.WithServIdAppend | welfare-data-ingestor/app/fetcher/local_fetcher.py:159-162 | the filter keeps order and multiplicity: the kept items of two lists joined are those of each, joined |
| Fetch.WithServIdAll | welfare-data-ingestor/app/fetcher/local_fetcher.py:159-162 | a page whose every item has an id loses none |
| Fetch.MapWithServId | welfare-data-ingestor/app/fetcher/local_fetcher.py:159-162 | the loop yields one mapped DTO per kept item, in order |
| LocalFetcher.LocalWelfareFetcher.BaseParams | welfare-data-ingestor/app/fetcher/local_fetcher.py:71-74 | the constant parameters plus `serviceKey` and `numOfRows`, and no other key |
| LocalFetcher.AcceptedItems | welfare-data-ingestor/app/fetcher/local_fetcher.py:35-49 | all items when the result code (absent read as "") is "0", "00" or "SUCCESS"; none otherwise |
| LocalFetcher.MapToDto | welfare-data-ingestor/app/fetcher/local_fetcher.py:77-120 | id, province, district and department copied; the split lists hold no empty or comma-bearing piece; a date exactly when `lastModYmd` has 8 characters |
| LocalFetcher.MapToDtoRegion | welfare-data-ingestor/app/fetcher/local_fetcher.py:104-106 | a service without province and district is placed in its department, else under the central-ministry label |
| LocalFetcher.ReservedKeys | welfare-data-ingestor/app/fetcher/local_fetcher.py:126-144 | `pageNo`, `serviceKey` and `numOfRows` are neither event keys nor constants |
| LocalFetcher.RequestParams | welfare-data-ingestor/app/fetcher/local_fetcher.py:126-144 | exactly the constants, the three fixed keys and the whitelisted event keys whose value is neither `None` nor "", as their `str()` text; event values win, constants survive otherwise |
| LocalFetcher.FetchServicesByPage | welfare-data-ingestor/app/fetcher/local_fetcher.py:122-172 | the request as above; no DTO on a network or parse failure; otherwise one mapped DTO per accepted item with an id, in order (the copy in welfare-data-ingestor/fetchers/local_fetcher.py is the same code) |
| ApiFetcher.FetchServicesByPage | welfare-data-ingestor/api_fetcher.py:65-92 | every event entry with a value other than `None` or "" overrides its parameter with its `str()` text, any key included; otherwise the page, key and constants stand; items only from a success code; no items on failure |
| CentralFetcher.CentralWelfareFetcher.BaseParams | welfare-data-ingestor/app/fetcher/central_fetcher.py:88-92 | the constant parameters plus `serviceKey`, `numOfRows` (the page size as text) and `callTp` "L", and no other key |
| CentralFetcher.FormatDatetime | welfare-data-ingestor/app/fetcher/central_fetcher.py:101-107 | a timestamp with a space is cut at the first space (a space-free prefix); an 8-character text becomes YYYY-MM-DD; anything else, including `None` and "", comes back unchanged |
| CentralFetcher.FormatDatetimeOfTimestamp | welfare-data-ingestor/app/fetcher/central_fetcher.py:101-104 | for every valid date, "YYYY-MM-DD hh:mm:ss" is reduced to exactly "YYYY-MM-DD" |
| CentralFetcher.ApplicationMethod | welfare-data-ingestor/app/fetcher/central_fetcher.py:115-121 | online iff 'Y', in person iff 'N', '정보 없음' iff neither |
| CentralFetcher.OrElse | welfare-data-ingestor/app/fetcher/central_fetcher.py:128 | Python's `a or b` on optional texts: `a` when truthy, else `b` |
| CentralFetcher.MapToDto | welfare-data-ingestor/app/fetcher/central_fetcher.py:123-138 | the id is `servId`, no province or district, the department is the ministry or else the organisation, themes are the split theme field, the method is the label `onapPsbltYn` maps to (online for "Y", in person for "N", no information otherwise), the date is the formatted registration stamp |
| CentralFetcher.CentralRegion | welfare-data-ingestor/app/fetcher/central_fetcher.py:128-130 | the region text of a central service names the ministry, else the organisation, else the central-ministry label |
| CentralFetcher.ReservedKeys | welfare-data-ingestor/app/fetcher/central_fetcher.py:144-156 | `pageNo`, `serviceKey`, `numOfRows` and `callTp` are neither event keys nor constants, so no event can overwrite them |
| CentralFetcher.RequestParams | welfare-data-ingestor/app/fetcher/central_fetcher.py:144-156 | the request holds exactly the constants, the four fixed keys and the whitelisted event keys whose value is neither `None` nor "", as their `str()` text; event values win over constants, constants survive otherwise |
| CentralFetcher.AcceptedItems | welfare-data-ingestor/app/fetcher/central_fetcher.py:37-64 | items come only from a `wantedList` whose `resultCode` is exactly "00", and then all of them |
| CentralFetcher.FetchServicesByPage | welfare-data-ingestor/app/fetcher/central_fetcher.py:140-181 | a failed request or parse yields no DTO; otherwise one DTO per accepted item with a truthy `servId`, in order, each mapped by `_map_to_dto` |
| CentralFetcher.LegacyAcceptedItems | welfare-data-ingestor/fetchers/central_fetcher.py:37-61 | `servList` (empty when absent) only when `resultCode` is exactly "00"; nothing otherwise |
| CentralFetcher.LegacyFetchServicesByPage | welfare-data-ingestor/fetchers/central_fetcher.py:141-186 | the legacy request is built the same way; one DTO per accepted item with a truthy `servId`, themes read from `intrsThemaArray`; failures yield none |
| EmploymentFetcher.AcceptedItems | welfare-data-ingestor/app/fetcher/employment_fetcher.py:29-40 | items only when the header result code is exactly "0000", and then all of them |
| EmploymentFetcher.Skills | welfare-data-ingestor/app/fetcher/employment_fetcher.py:70 | every skill is trimmed, non-empty of '/' and taken from `reqLicens`; an absent licence gives no skill |
| EmploymentFetcher.MapToDto | welfare-data-ingestor/app/fetcher/employment_fetcher.py:56-87 | company and title copied, the description is the title followed by " 직무 채용" (with "None" for a missing title), `termDate` kept raw, a date exactly when `regDt` has 8 characters, skills from `reqLicens` |
| EmploymentFetcher.SkillsOfOneLicence | welfare-data-ingestor/app/fetcher/employment_fetcher.py:69-70 | a licence such as "바리스타 2급/" gives the single trimmed skill before the slash |
| EmploymentFetcher.FetchServicesByPage | welfare-data-ingestor/app/fetcher/employment_fetcher.py:89-112 | the request holds the key, page and page size and every truthy event entry outside `source`, `serviceKey`, `pageNo`, `numOfRows`, as its `str()` text; every accepted item becomes one DTO in order; any failure yields none |
| Dto.ServiceId | welfare-data-ingestor/app/dto/employment_dto.py:6-27 | a record has a `service_id` exactly when it is a welfare service; a job posting has none |
| Dto.NewWelfareService | welfare-data-ingestor/app/dto/common_dto.py:11-28 | the four required fields as given; every defaulted field falls back: region '중앙부처', audience '정보 없음', the support sentences all '정보 없음' |
| Dto.Region | welfare-data-ingestor/app/dto/common_dto.py:33-35 | never empty; the stripped "province district" when non-empty; the department or '중앙부처' when both are missing |
| Dto.AudienceText | welfare-data-ingestor/app/dto/common_dto.py:38 | never empty; '정보 없음' for no audience; the ", "-joined list otherwise |
| Dto.AudienceSentence | welfare-data-ingestor/app/dto/common_dto.py:38 | opens with "이 복지 서비스는", the region and the audience |
| Dto.NameSentence | welfare-data-ingestor/app/dto/common_dto.py:41 | quotes the service name (`None` shown as "None") and ends with the summary |
| Dto.EmbeddingText | welfare-data-ingestor/app/dto/common_dto.py:31-42 | the audience sentence, then the support sentences, then the name sentence |
| Dto.EmbeddingTextParts | welfare-data-ingestor/app/dto/common_dto.py:31-42 | the welfare text opens with region and audience, quotes the name and ends with the summary |
| Dto.SupportFallbacks | welfare-data-ingestor/app/dto/common_dto.py:39-40 | a missing cycle, type or method each read '정보 없음' |
| Dto.SalaryText | welfare-data-ingestor/app/dto/employment_dto.py:33-38 | never empty; "type amount" stripped, NULL parts read as empty, or '정보 없음' whenever that is empty, in particular when neither is given |
| Dto.SalaryValue | welfare-data-ingestor/app/dto/employment_dto.py:33-38 | a trimmed pay type and a trimmed amount read "type amount" |
| Dto.SkillsSentence | welfare-data-ingestor/app/dto/employment_dto.py:32 | empty exactly when no skill is listed, else a sentence ending in '.' |
| Dto.RoleSentence | welfare-data-ingestor/app/dto/employment_dto.py:37 | quotes the job title |
| Dto.JobPlaceFallbacks | welfare-data-ingestor/app/dto/employment_dto.py:36-37 | a missing location reads '지역 미정' and a missing job type '유형 미정' |
| Dto.JobPlaceGiven | welfare-data-ingestor/app/dto/employment_dto.py:36-37 | a given location and job type appear as they are |
| Dto.TermsSentence | welfare-data-ingestor/app/dto/employment_dto.py:38-39 | the pay and requirement sentences end with a space |
| Dto.JobTextQuotesTitle | welfare-data-ingestor/app/dto/employment_dto.py:29-41 | the job text quotes the title |
| Dto.JobTextEnding | welfare-data-ingestor/app/dto/employment_dto.py:29-41 | the job text ends with the skills sentence, and ends with a space exactly when there are no skills |
| Dto.JobTermsFallbacks | welfare-data-ingestor/app/dto/employment_dto.py:33-39 | with every optional term missing, pay reads '정보 없음' and career and education '무관' |
| Dto.KeyOfSplits | welfare-data-ingestor/app/repository/employment_repository.py:108 | a key built from parts without '|' splits back into exactly those four parts |
| Dto.CompositeKeyInjective | welfare-data-ingestor/app/repository/employment_repository.py:106-108 | two postings without '|' in their parts share a key exactly when company, title, term and salary agree (`None` read as '') |
| Connection.Connection.FaultAt | welfare-data-ingestor/app/repository/base_repository.py:35-49 | the failure a statement raises: present exactly when one is scheduled for it |
| Connection.Connection.constructor | welfare-data-ingestor/app/repository/base_repository.py:14-29 | a fresh session sees the table as committed, has run no statement and is open |
| Connection.Connection.Execute | welfare-data-ingestor/app/repository/employment_repository.py:103 | a statement fails with exactly its scheduled fault and changes neither the seen nor the durable rows |
| Connection.Connection.Commit | welfare-data-ingestor/app/repository/base_repository.py:35-41 | success makes the session's rows durable; a driver error is swallowed and rolled back; any other exception escapes with nothing committed |
| Connection.Connection.Rollback | welfare-data-ingestor/app/repository/base_repository.py:43-49 | the session's view returns to the durable rows |
| Connection.Connection.Close | welfare-data-ingestor/app/repository/base_repository.py:51-57 | the session is closed and no row changes |
| EmploymentRepository.ParseTermDate | welfare-data-ingestor/app/repository/employment_repository.py:54-68 | a term only from a truthy text containing '~' whose two halves are valid ISO dates; every other text gives none |
| EmploymentRepository.ParseTermDateRoundTrip | welfare-data-ingestor/app/repository/employment_repository.py:59-65 | two valid dates printed around '~' parse back to the same term |
| EmploymentRepository.ParseTermDateExact | welfare-data-ingestor/app/repository/employment_repository.py:59-65 | a text that parses is exactly the printed form of its term |
| EmploymentRepository.JobRowOf | welfare-data-ingestor/app/repository/employment_repository.py:76-96 | the row keeps the posting and its embedding; start and end are both set or both NULL, and when set they are the term the raw text prints |
| EmploymentRepository.JobRowOfTerm | welfare-data-ingestor/app/repository/employment_repository.py:76-94 | conversely, a raw text that prints a valid term stores exactly that term's start and end |
| EmploymentRepository.JobRowsOf | welfare-data-ingestor/app/repository/employment_repository.py:72-98 | one row per pair |
| EmploymentRepository.BuildParamsList | welfare-data-ingestor/app/repository/employment_repository.py:70-98 | the loop builds one parameter tuple per pair, in order |
| EmploymentRepository.FreshPairs | welfare-data-ingestor/app/repository/employment_repository.py:133-137 | exactly the pairs whose posting's key is not stored |
| EmploymentRepository.FreshPairsAppend | welfare-data-ingestor/app/repository/employment_repository.py:133-137 | the filter keeps batch order and multiplicity: the fresh pairs of two batches joined are those of each, joined |
| EmploymentRepository.FreshPairsNoKeys | welfare-data-ingestor/app/repository/employment_repository.py:133-137 | against an empty table every pair is new |
| EmploymentRepository.Jobs | welfare-data-ingestor/app/repository/employment_repository.py:130-137 | the postings of the pairs, position by position |
| EmploymentRepository.SelectNew | welfare-data-ingestor/app/repository/employment_repository.py:129-137 | the comparison loop collects exactly the fresh pairs and their postings |
| EmploymentRepository.Unexpired | welfare-data-ingestor/app/repository/employment_repository.py:35-37 | exactly the rows without a past end date survive (a NULL end never expires) |
| EmploymentRepository.UnexpiredKeepsClean | welfare-data-ingestor/app/repository/employment_repository.py:35-37 | a table with no expired row loses nothing |
| EmploymentRepository.UnexpiredIdempotent | welfare-data-ingestor/app/repository/employment_repository.py:169-179 | a second deletion on the same day deletes nothing more |
| EmploymentRepository.UnexpiredCount | welfare-data-ingestor/app/repository/employment_repository.py:175-179 | survivors plus deleted rows make up the table, and the count is 0 exactly when nothing changes |
| EmploymentRepository.EmploymentRepository.constructor | welfare-data-ingestor/app/repository/employment_repository.py:44-45 | the repository works through the given session |
| EmploymentRepository.EmploymentRepository.GetExistingIds | welfare-data-ingestor/app/repository/employment_repository.py:47-52 | always the empty set |
| EmploymentRepository.EmploymentRepository.GetExistingKeysSet | welfare-data-ingestor/app/repository/employment_repository.py:100-115 | the keys of every row seen; a driver error is rolled back and raised again; another error escapes; nothing is committed |
| EmploymentRepository.EmploymentRepository.InsertServicesBatch | welfare-data-ingestor/app/repository/employment_repository.py:117-167 | empty batch gives nothing; a failed key query gives nothing or escapes; otherwise the fresh pairs are inserted and their postings returned, or on a failed insert the transaction is rolled back and nothing is returned |
| EmploymentRepository.EmploymentRepository.DeleteExpiredJobs | welfare-data-ingestor/app/repository/employment_repository.py:169-183 | the expired rows go and their number is returned; a driver error is rolled back and reported as 0; another error escapes |
| EmploymentRepository.FreshPairsAsWritten | welfare-data-ingestor/app/repository/employment_repository.py:133-134 | as written, the key lookup raises on every non-empty batch |
| EmploymentRepository.KeyLookupAsWrittenRaises | welfare-data-ingestor/app/repository/employment_repository.py:133-137 | on a one-posting batch and an empty table, the written lookup raises while the corrected one keeps the posting |
| WelfareRepository.ExistingIdsExact | welfare-data-ingestor/app/repository/welfare_repository.py:26-28 | an id is reported as existing exactly when it was asked about and some row carries it |
| WelfareRepository.RowsOf | welfare-data-ingestor/app/repository/welfare_repository.py:77-96 | one row per `(dto, embedding)` pair, in order, carrying that record and that vector |
| WelfareRepository.AcceptsIff | welfare-data-ingestor/app/repository/welfare_repository.py:31-40 | on a keyed table the batch INSERT succeeds exactly when no id of the batch is stored and none repeats within it |
| WelfareRepository.WelfareRepository.constructor | welfare-data-ingestor/app/repository/welfare_repository.py:42-46 | the repository works through the given session |
| WelfareRepository.WelfareRepository.GetExistingIds | welfare-data-ingestor/app/repository/welfare_repository.py:48-60 | no query for an empty list; otherwise the stored ids among those asked; a driver error is rolled back and reported as none; another error escapes; the key invariant is kept |
| WelfareRepository.WelfareRepository.InsertServicesBatch | welfare-data-ingestor/app/repository/welfare_repository.py:63-117 | 0 for an empty batch; otherwise either every pair is added and their number returned, or the statement fails (fault or key clash), is rolled back and 0 is returned; nothing escapes and the key invariant is kept |
| Notification.Chunks | welfare-data-ingestor/app/service/notification_service.py:61-63 | every chunk holds between 1 and 10 records |
| Notification.FlattenChunks | welfare-data-ingestor/app/service/notification_service.py:61-63 | the chunks put back together are the input: every record in exactly one chunk, in order |
| Notification.ChunkCount | welfare-data-ingestor/app/service/notification_service.py:61 | there are ceil(n / 10) chunks |
| Notification.EntriesOfExact | welfare-data-ingestor/app/service/notification_service.py:64-81 | a chunk's entries can be built exactly when it holds welfare records only (reading `service_id` of a posting raises, and so does the handler's log line), and then one entry per record whose id is its `service_id` |
| Notification.RunOf | welfare-data-ingestor/app/service/notification_service.py:61-108 | a run makes at most one request per chunk |
| Notification.RunAllRecords | welfare-data-ingestor/app/service/notification_service.py:61-101 | with welfare records only and no failing call, one request per chunk holding that chunk's entries, and no exception |
| Notification.RunRaisesOnPosting | welfare-data-ingestor/app/service/notification_service.py:76-81 | a chunk holding a posting makes the run raise, whatever the queue does |
| Notification.PublishRaisesOnPosting | welfare-data-ingestor/app/service/notification_service.py:61-81 | publishing a list that holds a posting raises |
| Notification.ChunkOf | welfare-data-ingestor/app/service/notification_service.py:61-63 | every record of the list sits in some chunk |
| Notification.RunCompleted | welfare-data-ingestor/app/service/notification_service.py:61-108 | a run that does not raise sent every chunk, each as its entries |
| Notification.PublishedGrows | welfare-data-ingestor/app/service/notification_service.py:90-93 | later requests do not take back earlier messages |
| Notification.PublishedAll | welfare-data-ingestor/app/service/notification_service.py:46-108 | a publication that does not raise sent the message of every record of its list |
| Notification.RunOnPostings | welfare-data-ingestor/app/service/notification_service.py:76-81 | a list starting with a posting raises before any request |
| Notification.RunStep | welfare-data-ingestor/app/service/notification_service.py:83-108 | one pass of the loop: the chunk raises, or is sent and raises on a failed call, or is sent and the run goes on |
| Notification.NotificationService.constructor | welfare-data-ingestor/app/service/notification_service.py:43-44 | a service on a non-empty queue URL, with no request made |
| Notification.NotificationService.SendMessageBatch | welfare-data-ingestor/app/service/notification_service.py:88-108 | the request is made and the call raises exactly when it is scheduled to fail (failed entries or a client error) |
| Notification.NotificationService.PublishChunk | welfare-data-ingestor/app/service/notification_service.py:63-108 | a chunk whose entries cannot be built raises before sending; otherwise its entries are sent, raising when that call fails |
| Notification.NotificationService.PublishNewServices | welfare-data-ingestor/app/service/notification_service.py:46-108 | nothing for an empty list; otherwise the requests made and the exception are exactly those of the run over the chunks |
| Notification.NotificationService.SendChunks | welfare-data-ingestor/app/service/notification_service.py:61-108 | the chunk loop makes exactly the run's requests and stops where the run raises |
| Notification.Create | welfare-data-ingestor/app/service/notification_service.py:32-44 | an empty queue URL is refused with the FATAL message; otherwise a fresh service with no request made |
| Processor.FirstEmpty | welfare-data-ingestor/app/processor.py:54-61 | the index of the first empty page: every earlier page is non-empty |
| Processor.Services | welfare-data-ingestor/app/processor.py:75 | the welfare records of a page, one per record |
| Processor.Postings | welfare-data-ingestor/app/processor.py:79 | the postings of a page, one per record |
| Processor.IdsFromApi | welfare-data-ingestor/app/processor.py:66 | no id from a page of postings; one `service_id` per record, in order, from a page of welfare records |
| Processor.FilterNew | welfare-data-ingestor/app/processor.py:74-75 | exactly the records whose id is not among the existing ones |
| Processor.FilterNewAppend | welfare-data-ingestor/app/processor.py:74-75 | the filter keeps page order and multiplicity: the new records of two lists joined are those of each, joined |
| Processor.Embedded | welfare-data-ingestor/app/processor.py:121-139 | exactly the items whose embedding succeeds, each with its vector |
| Processor.EmbeddedAppend | welfare-data-ingestor/app/processor.py:121-139 | the loop keeps order and multiplicity: the pairs of two lists joined are those of each, joined |
| Processor.EmbeddedTotal | welfare-data-ingestor/app/processor.py:124-128 | when no embedding call fails, every item is kept, in order |
| Processor.WelfareDtos | welfare-data-ingestor/app/processor.py:156 | the records of the stored pairs, in order, as the publisher takes them |
| Processor.DeliveredGrows | welfare-data-ingestor/app/processor.py:96-104 | rows already published stay published as more requests are made |
| Processor.BatchDelivered | welfare-data-ingestor/app/processor.py:141-167 | a stored batch whose records were published with their texts' embeddings is delivered |
| Processor.GrownRefl | welfare-data-ingestor/app/processor.py:99-110 | a page that commits nothing keeps the delivered invariant |
| Processor.GrownTrans | welfare-data-ingestor/app/processor.py:54-115 | the delivered invariant carries from page to page |
| Processor.IngestProcessor.constructor | welfare-data-ingestor/app/processor.py:19-28 | `start_page` defaults to 1 and `page_limit` to 5 |
| Processor.IngestProcessor.CreateEmbeddings | welfare-data-ingestor/app/processor.py:121-139 | the loop keeps exactly the embedded items with their vectors, skipping failures |
| Processor.IngestProcessor.SaveAndPublishWelfare | welfare-data-ingestor/app/processor.py:141-174 | 0 or the batch size; when the batch size, every row went in and every record was published; a failed statement or a refused batch reports 0 and publishes nothing; a fault-free, acceptable batch whose publication does not fail reports its size; a failed publication reports 0; nothing is committed here |
| Processor.IngestProcessor.NewWelfareData | welfare-data-ingestor/app/processor.py:63-92 | the page's unknown records, embedded; a driver error in the lookup makes every record unknown; an unexpected one escapes |
| Processor.IngestProcessor.StoreWelfarePage | welfare-data-ingestor/app/processor.py:94-110 | commit after a positive count, roll back otherwise; every committed row was published with its record's embedding; the count bounds the committed rows, exactly when nothing fails; without faults an acceptable batch is committed in full and counted, a refused one commits and publishes nothing; when the queue call raises, the count is 0 and nothing is committed |
| Processor.IngestProcessor.ProcessWelfarePage | welfare-data-ingestor/app/processor.py:63-113 | one welfare page: nothing committed when it raises; committed rows delivered and bounded by the count reported; when no statement and no publication fails, the committed table grows by exactly the page's rows (`PageRows`) and their number is reported |
| Processor.PageRowsCases | welfare-data-ingestor/app/processor.py:74-110 | a page commits its new, embedded records' rows when the store accepts the batch, and nothing when it refuses it |
| Processor.PageAcceptsIff | welfare-data-ingestor/app/processor.py:74-96 | on a keyed table the store accepts a page's batch exactly when no id repeats in it |
| Processor.PageDataDistinct | welfare-data-ingestor/app/processor.py:74-96 | a page whose records have distinct ids commits all of its new, embedded records |
| Processor.RunRowsNext | welfare-data-ingestor/app/processor.py:54-115 | the rows after `n` pages are those after `n - 1` pages followed by page `n - 1`'s rows, looked up against that table |
| Processor.IngestProcessor.WelfarePageStep | welfare-data-ingestor/app/processor.py:58-115 | one non-empty page of the run: delivery is kept, the count bounds the committed rows, and without faults the table grows to that of the first `k + 1` pages |
| Processor.IngestProcessor.SaveAndPublishEmployment | welfare-data-ingestor/app/processor.py:141-174 | with postings the publisher always raises, so the count is 0, nothing is committed and no request is made |
| Processor.IngestProcessor.ProcessEmploymentPage | welfare-data-ingestor/app/processor.py:63-113 | one employment page reports 0 and commits and publishes nothing |
| Processor.IngestProcessor.RunWelfarePages | welfare-data-ingestor/app/processor.py:50-119 | pages from `start_page` up to the first empty one are requested; every committed row was published; the total bounds the committed rows, exactly when nothing fails; when no statement and no publication fails, the committed table grows by exactly the rows of the pages before the first empty one (`RunRows`), page by page |
| Processor.IngestProcessor.RunEmploymentPages | welfare-data-ingestor/app/processor.py:37-119 | the expired postings are deleted (a failure ends the run with 0), then pages are requested up to the first empty one; the run reports 0 and commits and publishes nothing |
| Processor.IngestProcessor.RunForFetcher | welfare-data-ingestor/app/processor.py:30-119 | the page loop of the processor's store with the guarantees of the two runs above, including the fault-free welfare run's committed rows |
| Factory.PageConfig | welfare-data-ingestor/app/factory.py:32-35 | exactly `start_page` and `page_limit`, taken from the source's settings |
| Factory.GetDependencies | welfare-data-ingestor/app/factory.py:12-79 | wired exactly for a known source with a configured queue; any other source, including a value that is not a string, fails naming its `str()` text; an empty queue URL fails with the publisher's message; the adapter, store, queue and page settings match the source |
| Factory.GetSourcesToRun | welfare-data-ingestor/app/factory.py:81-90 | the event's truthy `source` alone, whatever kind of value it is, otherwise "local" then "central" |
| Factory.DefaultRunIsWelfare | welfare-data-ingestor/app/factory.py:81-90 | a run without a source covers only welfare sources, each wired to the welfare store and queue, never the employment one |
| Factory.RunSourcesResolve | welfare-data-ingestor/app/factory.py:12-90 | with both queues configured, every source a run covers is wired up or fails naming itself, and only an event-given source can fail |
| LegacyEmbedding.NewEmbeddingService | welfare-data-ingestor/embedding_service.py:11-15 | built exactly for a non-empty model id; otherwise the `ValueError` message |
| LegacyEmbedding.Closing | welfare-data-ingestor/embedding_service.py:27-34 | the closing sentence quotes the name (or '제목 없음') and ends with the summary (or '내용 없음') |
| LegacyEmbedding.EmbeddingText | welfare-data-ingestor/embedding_service.py:17-35 | the text opens with the raw region and audience, carries the support sentences, quotes the name and ends with the summary |
| LegacyEmbedding.EmbeddingTextFallbacks | welfare-data-ingestor/embedding_service.py:20-35 | an item with none of the eight keys reads every fallback: empty region, '정보 없음' audience and support phrases, '제목 없음' and '내용 없음' |
| LegacyEmbedding.GetEmbedding | welfare-data-ingestor/embedding_service.py:37-62 | a vector comes back exactly when the reply decodes and carries a non-empty `embedding`; a failed call or an empty value raises |
| LegacyEmbedding.CreateEmbeddingForService | welfare-data-ingestor/embedding_service.py:64-67 | the item's text is sent to the service's model; a vector comes back exactly when the model returned a non-empty one, and it is that vector |
| LegacyRepository.RowOf | welfare-data-ingestor/repository.py:77-98 | the row holds the local adapter's column mapping of the item (id from `servId`) and the embedding |
| LegacyRepository.RowsOf | welfare-data-ingestor/repository.py:82-98 | one row per pair, in order |
| LegacyRepository.LegacyRepository.constructor | welfare-data-ingestor/repository.py:28-43 | the repository works through the given session, with no failed statement pending |
| LegacyRepository.LegacyRepository.GetExistingIds | welfare-data-ingestor/repository.py:48-60 | no query for an empty list; the stored ids among those asked; a driver error, including a refused statement of a failed transaction, is rolled back and reported as none; another error escapes |
| LegacyRepository.LegacyRepository.InsertService | welfare-data-ingestor/repository.py:77-105 | never raises; adds the row when the statement goes through and the key accepts it; a refused statement leaves the table and marks the transaction failed; the key invariant is kept |
| LegacyRepository.LegacyRepository.Commit | welfare-data-ingestor/repository.py:108-114 | a transaction with no failed statement becomes durable; a failed one ends in a ROLLBACK; a driver error on commit is rolled back; another error escapes with nothing changed |
| LegacyRepository.LegacyRepository.Rollback | welfare-data-ingestor/repository.py:116-122 | the uncommitted rows are discarded and the transaction ends |
| LegacyRepository.LegacyRepository.Close | welfare-data-ingestor/repository.py:124-130 | the session is closed and no row changes |
| LegacyRepository.InsertedIdStored | welfare-data-ingestor/repository.py:83-100 | after an accepted insert the table's ids are the old ones plus the item's `servId` |
| LegacyHandler.ServIds | welfare-data-ingestor/lambda_function.py:67 | the truthy `servId`s of the page, one per item that has one, in order |
| LegacyHandler.ServIdsEmpty | welfare-data-ingestor/lambda_function.py:67-70 | the id list is empty exactly when no item has an id, the case in which the page is skipped |
| LegacyHandler.NewItems | welfare-data-ingestor/lambda_function.py:73 | exactly the items whose id is missing or not among the existing ones |
| LegacyHandler.NewItemsAppend | welfare-data-ingestor/lambda_function.py:73 | the filter keeps page order and multiplicity: the new items of two lists joined are those of each, joined |
| LegacyHandler.NewItemsUnstored | welfare-data-ingestor/lambda_function.py:67-73 | with the lookup's answer on the current table, no item whose id is stored is new, and every new item with an id carries one the table lacks |
| LegacyHandler.RowsOfAppend | welfare-data-ingestor/lambda_function.py:82-88 | the rows of two batches joined are the rows of each, joined |
| LegacyHandler.InsertPair | welfare-data-ingestor/lambda_function.py:88-89 | one insert: the pending rows grow by the pair exactly when its row went in; a fault-free run over storable pairs keeps every pair |
| LegacyHandler.EmbedStep | welfare-data-ingestor/lambda_function.py:82-99 | one item: a failed embedding changes nothing; any other item is inserted and counted, keeping the loop's invariant |
| LegacyHandler.EmbedAndInsert | welfare-data-ingestor/lambda_function.py:81-99 | every item with an embedding is inserted and counted (whether or not the insert went through), every other one skipped; the transaction gained only rows of counted pairs |
| LegacyHandler.InsertAndCommit | welfare-data-ingestor/lambda_function.py:81-105 | the page's count is the number of embedded items; only rows of embedded pairs become durable; a fault-free page of storable items commits them all |
| LegacyHandler.ProcessPage | welfare-data-ingestor/lambda_function.py:67-105 | a page without ids does nothing; otherwise the lookup's answer (none on a driver error) selects the new items, which are embedded, inserted and committed; rows committed come from the page with their text's embedding |
| LegacyHandler.PagesAsked | welfare-data-ingestor/lambda_function.py:54-62 | at most the page limit, none for a limit of 0 or less, stopping right after the first empty page |
| LegacyHandler.PageStep | welfare-data-ingestor/lambda_function.py:59-108 | one non-empty page: the committed rows grow only by rows from this page; on a clean run (no fault, the page's new items storable one by one) it returns and the committed pairs become those of the first `k + 1` pages (`RunPairs`) |
| LegacyHandler.RunPairsEmptyPage | welfare-data-ingestor/lambda_function.py:59-62 | an empty page adds no pairs to a run |
| LegacyHandler.AllBelowAt | welfare-data-ingestor/lambda_function.py:55 | a property of every page index below `n` holds at each such index |
| LegacyHandler.RunPages | welfare-data-ingestor/lambda_function.py:54-108 | pages from the start page are requested in order up to the first empty one and the limit; committed pairs come from requested pages with their embeddings; an escaping error needs a fault; on a clean run the committed pairs are exactly `RunPairs` over the pages asked for |
| LegacyHandler.Handler | welfare-data-ingestor/lambda_function.py:37-120 | pages from the start page are requested in order, up to the first empty one and the limit; an escaping error is rolled back and the connection is always closed; every committed row comes from a requested page with its text's embedding; without faults no error escapes; when no statement fails and every page's new items can be inserted one by one, the committed pairs are exactly the new, embedded items of the pages asked for, page by page, each page looked up against the table the earlier ones left |
| LegacyHandler.PageStored | welfare-data-ingestor/lambda_function.py:105 | pairs committed by a page come from that page and keep the invariant of the run |
| Json.Lookup | chatbot/data_processor.py:9-10 | an absent key reads as `None`; a present one as its value |
| DataProcessor.ParseRequestBody | chatbot/data_processor.py:6-15 | a body that is not JSON or not an object fails; a missing body reads as `{}` and so fails for lack of `query2`; otherwise success exactly when `query2` is truthy, carrying `query1` (or its default) and `query2` |
| DataProcessor.ParseRequestRoundTrip | chatbot/data_processor.py:8-15 | a body holding both queries parses back to them; one without `query1` parses to the default user information |
| DataProcessor.BuildResponse | chatbot/data_processor.py:50-56 | the given status and body, with exactly the two fixed headers |
| DataProcessor.ResponseHeadersFixed | chatbot/data_processor.py:54 | the headers are the same for every call; two responses are equal exactly when status and body are |
| ResponseBuilder.Place | chatbot/util/response_builder.py:22-27 | no location reads nationwide; one without a space is the province; otherwise the province is the text before the first space and the city the piece after it |
| ResponseBuilder.FirstPiece | chatbot/util/response_builder.py:25-26 | the first piece of a split is the longest separator-free prefix of the text |
| ResponseBuilder.PlaceOfPair | chatbot/util/response_builder.py:22-27 | "province city" of two space-free parts is taken apart into exactly those parts |
| ResponseBuilder.JobDocFields | chatbot/util/response_builder.py:17-29 | a job's document has all five fields: its name is "company - title", its summary the description or the stock sentence, its link the link or the stock notice, its province and district those of its location |
| ResponseBuilder.NormalizeJobs | chatbot/util/response_builder.py:15-29 | one `(score, document)` per job row, in order |
| ResponseBuilder.NormalizeServices | chatbot/util/response_builder.py:31-35 | one `(score, fields)` per welfare row, in order, each field as the row holds it, NULL included (a central service's province and district are NULL) |
| ResponseBuilder.MentionTest | chatbot/util/response_builder.py:49 | the location test raises exactly when it reaches a NULL name, or a NULL summary after a name that does not contain the location |
| ResponseBuilder.Hits | chatbot/util/response_builder.py:48-50 | the number of locations a document mentions is at most the number of locations |
| ResponseBuilder.RankedOf | chatbot/util/response_builder.py:44-51 | one record per result, in input order, carrying its score |
| ResponseBuilder.Insert | chatbot/util/response_builder.py:53 | one record more, the same records plus the new one |
| ResponseBuilder.SortDesc | chatbot/util/response_builder.py:53 | the sort is a permutation of its input |
| ResponseBuilder.WithScoreAppend | chatbot/util/response_builder.py:53 | the records of one score in a joined list are those of each part, joined |
| ResponseBuilder.WithScoreNone | chatbot/util/response_builder.py:53 | a list without a record of a score has none to select |
| ResponseBuilder.InsertSorted | chatbot/util/response_builder.py:53 | insertion keeps a list sorted by descending score |
| ResponseBuilder.InsertWithScore | chatbot/util/response_builder.py:53 | an inserted record follows every record of its own score |
| ResponseBuilder.InsertWithScoreAfter | chatbot/util/response_builder.py:53 | the same, when the record goes after the head |
| ResponseBuilder.InsertWithScoreFront | chatbot/util/response_builder.py:53 | the same, when the record goes in front |
| ResponseBuilder.SortDescSorted | chatbot/util/response_builder.py:53 | the sort orders by descending score |
| ResponseBuilder.SortDescStable | chatbot/util/response_builder.py:53 | the sort is stable: records of equal score keep their order |
| ResponseBuilder.SortDescLast | chatbot/util/response_builder.py:53 | sorting a list inserts its last record into the sort of the rest |
| ResponseBuilder.WithScoreLast | chatbot/util/response_builder.py:53 | the records of one score of a list: those of all but its last, then the last if it has that score |
| ResponseBuilder.Rerank | chatbot/util/response_builder.py:39-54 | without locations the first three rows; with them, `TypeError` exactly when some test meets a NULL name or summary, and otherwise at most three results, all from the input, in descending order of score |
| ResponseBuilder.SortedRanked | chatbot/util/response_builder.py:44-53 | the sorted records are one per result, by descending score, each with its own score |
| ResponseBuilder.RerankTop | chatbot/util/response_builder.py:53-54 | when no test raises, a result left out scores no more than the third one kept |
| ResponseBuilder.RerankStable | chatbot/util/response_builder.py:53 | results of equal score keep their input order |
| ResponseBuilder.ScoreRow | chatbot/data_processor.py:31-34 | a row's score is ten per location it mentions, and no score exactly when one of its tests raises |
| ResponseBuilder.RerankResults | chatbot/data_processor.py:23-38 | the loop computes exactly the reranking above, raising at a test that meets a NULL text |
| ResponseBuilder.RegionText | chatbot/util/response_builder.py:60 | the region text is never empty; a NULL column prints as "None" |
| ResponseBuilder.RegionTextCases | chatbot/util/response_builder.py:60 | an empty province and city read nationwide; a trimmed province alone is itself; trimmed province and city are joined by one space; a NULL province and city read "None None" |
| ResponseBuilder.RegionOfCentralService | chatbot/util/response_builder.py:60 | a service with a NULL province and district, as every central service is stored, reads "None None" rather than nationwide |
| ResponseBuilder.RegionTextIntended | chatbot/util/response_builder.py:60 | the intended region text is never empty |
| ResponseBuilder.RegionTextIntendedCases | chatbot/util/response_builder.py:60 | the intended region equals the written one when both columns are present, reads nationwide when both are NULL or empty, and the province alone when the district is NULL |
| ResponseBuilder.Entries | chatbot/util/response_builder.py:59-63 | one entry per document |
| ResponseBuilder.EntriesAt | chatbot/util/response_builder.py:59-63 | the entry at position i is that of document i, numbered i + 1 |
| ResponseBuilder.EntryShape | chatbot/util/response_builder.py:62 | an entry opens with its number and the service name and ends with the link and a newline |
| ResponseBuilder.FormatContextString | chatbot/data_processor.py:40-48 | the entries joined by newlines; empty exactly when there is no document |
| ResponseBuilder.EntriesStep | chatbot/util/response_builder.py:59-63 | one document more adds exactly its entry |
| ResponseBuilder.ContextEmpty | chatbot/util/response_builder.py:64 | no context exactly when there is no document |
| ChatLogic.Fields | chatbot/domain/chat_logic.py:14 | a response that is not an object reads as empty |
| ChatLogic.DistortionTags | chatbot/domain/chat_logic.py:14-16 | at most one tag; the distortion exactly when it is truthy and not the unanalysable marker |
| ChatLogic.GetUserSessions | chatbot/domain/chat_logic.py:10-24 | one item per row, in order, with its id, last message, time and tags |
| ChatLogic.DistortionTagCases | chatbot/domain/chat_logic.py:15-16 | a found distortion is the tag; the marker, a missing key or a non-object response give none |
| ChatLogic.ReplyTextJoined | chatbot/domain/chat_logic.py:37 | trimmed empathy and question are joined by one space |
| ChatLogic.ReplyTextEmpty | chatbot/domain/chat_logic.py:37 | a reply with neither part is empty |
| ChatLogic.TurnMessages | chatbot/domain/chat_logic.py:35-44 | a turn gives the user's message then the assistant's, both at the turn's time, the latter with the distortion and empathy |
| ChatLogic.TurnReply | chatbot/domain/chat_logic.py:37-40 | the assistant's content is the stripped reply |
| ChatLogic.Messages | chatbot/domain/chat_logic.py:33-44 | two messages per turn |
| ChatLogic.MessagesAt | chatbot/domain/chat_logic.py:33-44 | turn i owns messages 2i and 2i + 1 |
| ChatLogic.MessagesStep | chatbot/domain/chat_logic.py:33-44 | one turn more adds exactly its two messages |
| ChatLogic.Offset | chatbot/domain/chat_logic.py:27-28 | for a page of 1 or more, a non-negative multiple of 20 that starts that page |
| ChatLogic.TotalPageAsWritten | chatbot/domain/chat_logic.py:49 | as written, at least one page; for stored rows, one more than the number of full 20-row pages |
| ChatLogic.TotalPageAsWrittenOverCounts | chatbot/domain/chat_logic.py:49 | as written, 20 messages report a second page that starts past the last row |
| ChatLogic.PageCount | chatbot/domain/chat_logic.py:49 | at least one page; for stored rows, the fewest pages of 20 that hold them |
| ChatLogic.PageCountCorrect | chatbot/domain/chat_logic.py:27-28 | every reported page starts at a stored row; the count differs from the one as written exactly when the total is a multiple of 20 |
| ChatLogic.GetSessionHistory | chatbot/domain/chat_logic.py:26-51 | the page's rows are fetched with size 20 and their offset, and turned into their messages; the page count is the one as written from the row total; page and session echo the request |
| ChatLogic.MessagesSingle | chatbot/domain/chat_logic.py:33-44 | a single turn gives exactly its two messages |
| ChatLogic.TurnOfParts | chatbot/test/services/test_chat_service.py:47-74 | a turn of trimmed empathy and question gives the user's input and the joined reply |
| ChatLogic.TurnOfPartsReply | chatbot/test/services/test_chat_service.py:73-74 | its reply is the two parts joined by one space |
| ChatLogic.TurnOfPartsFields | chatbot/domain/chat_logic.py:37-43 | its fields render as the two parts, with no distortion |
| ChatLogic.HistoryTestTurn | chatbot/test/services/test_chat_service.py:53-74 | the test's stored turn gives two messages: the user's text, then the assistant's reply "그렇지 않아요. 왜죠?" |
| WorkerService.ZeroVector | chatbot/service/worker_service.py:51 | 1024 zeros |
| WorkerService.Vector | chatbot/service/worker_service.py:47-51 | a failed embedding call logs the zero vector; otherwise the returned value |
| WorkerService.EntryOf | chatbot/service/worker_service.py:34-60 | the row logged carries the message's fields as they came and the vector of its input |
| WorkerService.Entries | chatbot/service/worker_service.py:29-62 | at most one row per message |
| WorkerService.Stored | chatbot/repository/chat_repository.py:31-50 | at most the rows asked for are stored |
| WorkerService.StoredAll | chatbot/repository/chat_repository.py:31-50 | when no insert fails every row asked for is stored |
| WorkerService.ChatRepository.constructor | chatbot/repository/chat_repository.py:31-50 | no rows and no calls |
| WorkerService.ChatRepository.LogCbtSession | chatbot/repository/chat_repository.py:31-50 | one attempt; the row is committed unless that attempt fails, which is swallowed |
| WorkerService.ProcessSqsBatch | chatbot/service/worker_service.py:10-78 | every message counted once; the accepted ones are logged in order and count as successes, the rest as failures |
| WorkerService.BatchAllAccepted | chatbot/test/services/test_worker_service.py:57-73 | two well-formed messages: two successes, no failure, two log calls, the first for `session_A` |
| WorkerService.BatchPartlyRejected | chatbot/test/services/test_worker_service.py:101-106 | a good message, a bad body and a message missing fields: one success, two failures, one log call |

## Left out

- Networking is not modelled: HTTP requests, SSL setup and `urlencode`. A fetcher takes the parameters it would send and the parsed reply, and returns the page it would yield. A network error is a parameter of the reply, and it yields an empty page like every other exception.
- The XML and JSON parsers are not modelled. A reply is given as its result code and its list of item maps; a parse error is one more reply case.
- JSON values are reduced to what the code reads from them. A request or message body's value is absent, null, a string, or another value given by its truthiness. An event value is null, a string, or another value given by its `str()` text and its truthiness. `json.dumps` of a message body, and the 200-response text of both handlers, are not modelled.
- Bedrock calls are parameters: a function from text to an optional vector (the legacy `invoke`, the application's `embed`, the chatbot's `embed`). Vectors are sequences of `real`; floating-point rounding is not modelled.
- `welfare-data-ingestor/app/service/embedding_service.py` is not part of this model beyond that parameter.
- The SQL text is not modelled. Each statement is one step on a row table. `execute_values` with `page_size=100` is one statement, so a batch that fails part-way through its pages is not distinguished from one that fails at the start.
- A failed statement does not put the transaction into PostgreSQL's aborted state; only the statement raises. The legacy repository keeps an `aborted` flag because its handler's behaviour depends on it.
- A rollback or close that itself raises is not modelled. Connection failures in the repositories' constructors and the legacy module-level client setup (`welfare-data-ingestor/lambda_function.py:17-34`) are not modelled either.
- Nullable database columns are modelled where the code reads them back: the term end date, the columns of the composite key, and the columns of both chatbot searches. A NULL prints as "None" where the code formats it, and makes `in` raise `TypeError` in the reranker.
- `CURRENT_DATE` and `datetime.now()` are a `today` parameter.
- Logging and `time.sleep` are not modelled.
- The generator cleanup of `get_db_conn` in the chatbot worker is not modelled.
- `extract_locations` (a regular expression over the query) is not modelled; the reranker takes the locations it would return.
- `EmploymentRepository.BuildParamsList`: `_build_params_list` cannot raise in the model. Its fields are plain values, so the `TypeError` paths of the source do not arise.
- `Processor.IngestProcessor.RunWelfarePages`: the loop ends at the first empty page, as written; `page_limit` is never consulted. The model's fetcher yields nothing past its last page, so a run always ends; a source that never returns an empty page is not modelled.
- `Processor.IngestProcessor.RunWelfarePages`: the run's total bounds the rows committed and equals them only without faults. `base_repository.commit` swallows a driver error and rolls back, yet the page is still counted, and the contract says no more than this.
- `LegacyHandler.Handler`: the reported total is not related to the committed rows, because the per-page count also counts inserts that the repository swallowed. The contract states which rows are committed and which pages are requested, not the number in the response. It states that the committed rows are exactly those of the pages asked for only when every page's new items can be inserted one after another; a swallowed insert failure under no fault (a clashing id) is covered only by the soundness clauses.
- `EmploymentRepository.EmploymentRepository.InsertServicesBatch`: on a non-empty batch it models the corrected key lookup, built as the stored rows' key at employment_repository.py:108, not the `AttributeError` the code raises at employment_repository.py:134 (see Findings; the code as written is `EmploymentRepository.FreshPairsAsWritten`).
- `Dates.ParseIsoDate`: models `date.fromisoformat` as Python up to 3.10 defines it, which accepts only `YYYY-MM-DD`; the extra formats accepted from Python 3.11 (`YYYYMMDD`, ISO week dates) are not modelled, since no runtime version is pinned.
- `ResponseBuilder.FormatContextString`: the entries keep the region as the code writes it (`RegionText`), so a service with a NULL province and district reads "None None"; the intended region is `RegionTextIntended` (see Findings).
- `ChatLogic.BotResponse`: the stored bot response read by the history and session lists holds strings or null only; nested JSON values in it are not modelled.
- Concurrency: nothing in the code runs concurrently.

## Findings

| source | as written | input that shows it | evidently intended | confidence | as-written member | corrected member |
|---|---|---|---|---|---|---|
| welfare-data-ingestor/app/repository/employment_repository.py:134 | `insert_services_batch` calls `dto.get_composite_key()`, a method `JobOpeningDTO` does not define, so every non-empty batch raises `AttributeError`, rolls back and stores nothing | any batch of one job posting with its embedding | the key of a posting is built the same way as the stored rows' key, `company\|title\|term\|salary` (line 108), so new postings are inserted | not executed | EmploymentRepository.KeyLookupAsWrittenRaises | EmploymentRepository.FreshPairs |
| chatbot/domain/chat_logic.py:49 | `total_page = total_cnt // 20 + 1` for a non-empty session | a session of exactly 20 rows reports 2 pages, and page 2 is empty | the number of 20-row pages, `ceil(total_cnt / 20)` | not executed | ChatLogic.TotalPageAsWrittenOverCounts | ChatLogic.PageCountCorrect |
| chatbot/util/response_builder.py:60 | `region = f"{prov} {city}".strip() or "전국"` with `prov` and `city` read from nullable columns | a central service, stored with a NULL province and district (welfare-data-ingestor/app/fetcher/central_fetcher.py:129-130), reads "지역: None None" in the context given to the language model | a missing region reads "전국", NULL columns taken as empty as welfare-data-ingestor/app/dto/common_dto.py:33 does | not executed | ResponseBuilder.RegionOfCentralService | ResponseBuilder.RegionTextIntendedCases |
