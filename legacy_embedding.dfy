/** The legacy embedding service: the text it builds from a raw API item, the
    check on the model's reply, and the construction guard on the model id.
    The model call itself is a parameter. */
module LegacyEmbedding {
  import opened Wrappers
  import opened Text
  import opened Fetch
  import opened Dto

  const NoTitle: string := "제목 없음"
  const NoContent: string := "내용 없음"
  const MissingModelId: string := "Bedrock 모델 ID가 설정되지 않았습니다."

  /** The service as constructed: which model it calls. */
  datatype EmbeddingService = EmbeddingService(modelId: string)

  /** `EmbeddingService(bedrock_runtime, model_id)`: an empty or missing model
      id raises `ValueError`. */
  function NewEmbeddingService(modelId: string): (r: Result<EmbeddingService, string>)
    ensures r.Success? <==> modelId != ""
    ensures r.Success? ==> r.value.modelId == modelId
    ensures r.Failure? ==> r.error == MissingModelId
  {
    if modelId == "" then Failure(MissingModelId) else Success(EmbeddingService(modelId))
  }

  /** The opening of the text: the raw province and district (empty when
      missing) and the raw audience text (or '정보 없음'). */
  function Opening(item: Item): string {
    "이 복지 서비스는 " + Or(Get(item, "ctpvNm"), "") + " " + Or(Get(item, "sggNm"), "") + " 지역의 "
    + Or(Get(item, "trgterIndvdlNmArray"), NoInfo)
  }

  /** The support sentences: cycle, form and how to apply, each '정보 없음'
      when missing or empty. */
  function Support(item: Item): string {
    "지원 주기는 " + Or(Get(item, "sprtCycNm"), NoInfo) + "이며, " + Or(Get(item, "srvPvsnNm"), NoInfo) + " 형태로 제공됩니다. "
    + "신청은 " + Or(Get(item, "aplyMtdNm"), NoInfo) + " 방식으로 할 수 있습니다. "
  }

  /** The closing sentence: the service name in single quotes (or '제목 없음'),
      then the summary (or '내용 없음'). */
  function Closing(item: Item): (r: string)
    ensures Contains(r, "'" + Or(Get(item, "servNm"), NoTitle) + "'")
    ensures EndsWith(r, Or(Get(item, "servDgst"), NoContent))
  {
    var quoted := "'" + Or(Get(item, "servNm"), NoTitle) + "'";
    var summary := Or(Get(item, "servDgst"), NoContent);
    var tail := "이고, 주요 내용은 다음과 같습니다: " + summary;
    Pieces("서비스명은 ", quoted, tail);
    Pieces("이고, 주요 내용은 다음과 같습니다: ", "", summary);
    assert "이고, 주요 내용은 다음과 같습니다: " + "" + summary == tail;
    EndsWithTrans("서비스명은 " + quoted + tail, tail, summary);
    "서비스명은 " + quoted + tail
  }

  /** `_build_embedding_text`: one template over eight item keys, each missing
      or empty value replaced by its fallback. The text opens with the region
      and audience, carries the support sentences, quotes the service name and
      ends with the summary. */
  function EmbeddingText(item: Item): (r: string)
    ensures StartsWith(r, Opening(item))
    ensures Contains(r, Support(item))
    ensures Contains(r, "'" + Or(Get(item, "servNm"), NoTitle) + "'")
    ensures EndsWith(r, Or(Get(item, "servDgst"), NoContent))
  {
    var head := Opening(item) + "를 대상으로 합니다. ";
    var r := head + Support(item) + Closing(item);
    Pieces(head, Support(item), Closing(item));
    Pieces(Opening(item), "", "를 대상으로 합니다. ");
    StartsWithTrans(r, head, Opening(item));
    EndsWithTrans(r, Closing(item), Or(Get(item, "servDgst"), NoContent));
    SuffixContains(r, Closing(item));
    ContainsTrans(r, Closing(item), "'" + Or(Get(item, "servNm"), NoTitle) + "'");
    r
  }

  /** The keys the template reads. */
  const TemplateKeys: set<string> :=
    {"ctpvNm", "sggNm", "trgterIndvdlNmArray", "sprtCycNm", "srvPvsnNm", "aplyMtdNm", "servNm", "servDgst"}

  /** An item that carries none of the template's keys reads every fallback:
      an empty region around the audience '정보 없음', '정보 없음' in each
      support phrase, and '제목 없음' and '내용 없음' in the closing sentence. */
  lemma EmbeddingTextFallbacks(item: Item)
    requires forall k :: k in TemplateKeys ==> k !in item
    ensures Opening(item) == "이 복지 서비스는   지역의 " + NoInfo
    ensures Support(item) == NoInfoSupport
    ensures Closing(item) == "서비스명은 " + ("'" + NoTitle + "'") + ("이고, 주요 내용은 다음과 같습니다: " + NoContent)
  {
    assert "ctpvNm" in TemplateKeys && "sggNm" in TemplateKeys && "trgterIndvdlNmArray" in TemplateKeys;
    assert "sprtCycNm" in TemplateKeys && "srvPvsnNm" in TemplateKeys && "aplyMtdNm" in TemplateKeys;
    assert "servNm" in TemplateKeys && "servDgst" in TemplateKeys;
    assert Or(Get(item, "servNm"), NoTitle) == NoTitle && Or(Get(item, "servDgst"), NoContent) == NoContent;
  }

  /** What the model call yields: an error (`ClientError`, or a body that
      cannot be read or decoded), or the decoded body's `embedding` value. */
  datatype Reply = CallFailed | Body(embedding: Option<Embedding>)

  /** `get_embedding` after the call: the vector when the reply carries a
      non-empty one; `None` where the method raises. */
  function GetEmbedding(reply: Reply): (r: Option<Embedding>)
    ensures r.Some? ==> r.value != [] && reply == Body(Some(r.value))
    ensures reply.Body? && reply.embedding.Some? && reply.embedding.value != [] ==> r.Some?
  {
    match reply
    case Body(Some(e)) => if e == [] then None else Some(e)
    case _ => None
  }

  /** The embedder the handler uses: the model's reply to a text, checked. */
  function Embedder(s: EmbeddingService, invoke: (string, string) -> Reply): string -> Option<Embedding> {
    t => GetEmbedding(invoke(s.modelId, t))
  }

  /** `create_embedding_for_service`: the item's text sent to the service's
      model; only a non-empty vector comes back. */
  function CreateEmbeddingForService(s: EmbeddingService, item: Item, invoke: (string, string) -> Reply): (r: Option<Embedding>)
    ensures r.Some? ==> r.value != [] && invoke(s.modelId, EmbeddingText(item)) == Body(Some(r.value))
    ensures invoke(s.modelId, EmbeddingText(item)).Body? && invoke(s.modelId, EmbeddingText(item)).embedding.Some? &&
            invoke(s.modelId, EmbeddingText(item)).embedding.value != [] ==>
      r == invoke(s.modelId, EmbeddingText(item)).embedding
  {
    GetEmbedding(invoke(s.modelId, EmbeddingText(item)))
  }
}
