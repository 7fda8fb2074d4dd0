/** The chat history service: the list of a user's sessions with their
    distortion tags, and one page of a session's messages, each stored turn
    split into the user's message and the assistant's reply. The repository
    queries are parameters. */
module ChatLogic {
  import opened Wrappers
  import opened Text

  /** The tag the analyser writes when it could not classify a message. */
  const Unanalysable: string := "분석 불가"
  /** Messages per page. */
  const PageSize: nat := 20

  /** A stored bot response: a JSON object whose values are strings or
      `null`, or something that is not an object (read as `{}`). */
  type BotResponse = Option<map<string, Option<string>>>

  /** `r[3] if isinstance(r[3], dict) else {}`. */
  function Fields(bot: BotResponse): (r: map<string, Option<string>>)
    ensures bot.None? ==> r == map[]
  {
    if bot.Some? then bot.value else map[]
  }

  /** `bot_res.get(key)`: `None` for an absent key and for a JSON `null`. */
  function Get(fields: map<string, Option<string>>, key: string): Option<string> {
    if key in fields then fields[key] else None
  }

  // ---------------------------------------------------------------------------
  // get_user_sessions
  // ---------------------------------------------------------------------------

  /** A row of the session query: id, last message, its time, bot response. */
  datatype SessionRow = SessionRow(sessionId: string, lastMessage: string, lastUpdated: string, bot: BotResponse)

  datatype SessionItem = SessionItem(sessionId: string, lastMessage: string, lastUpdated: string, distortionTags: seq<string>)

  /** The session's tags: the detected distortion, unless it is missing,
      empty or the could-not-analyse marker. */
  function DistortionTags(bot: BotResponse): (r: seq<string>)
    ensures |r| <= 1
    ensures r != [] <==> Truthy(Get(Fields(bot), "detected_distortion")) &&
                         Get(Fields(bot), "detected_distortion").value != Unanalysable
    ensures r != [] ==> r == [Get(Fields(bot), "detected_distortion").value]
  {
    var d := Get(Fields(bot), "detected_distortion");
    if Truthy(d) && d.value != Unanalysable then [d.value] else []
  }

  /** The list item of a row. */
  function ItemOf(row: SessionRow): SessionItem {
    SessionItem(row.sessionId, row.lastMessage, row.lastUpdated, DistortionTags(row.bot))
  }

  /** `ChatService.get_user_sessions` over the rows the repository returned:
      one item per row, in order, carrying the row's id, message and time. */
  method GetUserSessions(rows: seq<SessionRow>) returns (sessions: seq<SessionItem>)
    ensures |sessions| == |rows|
    ensures forall i :: 0 <= i < |rows| ==> sessions[i] == ItemOf(rows[i])
  {
    sessions := [];
    for i := 0 to |rows|
      invariant |sessions| == i
      invariant forall k :: 0 <= k < i ==> sessions[k] == ItemOf(rows[k])
    {
      sessions := sessions + [ItemOf(rows[i])];
    }
  }

  /** A session whose analysis found a distortion is tagged with it; one with
      no analysis, a non-object response or the could-not-analyse marker is
      untagged. */
  lemma DistortionTagCases(d: string)
    ensures d != "" && d != Unanalysable ==> DistortionTags(Some(map["detected_distortion" := Some(d)])) == [d]
    ensures DistortionTags(Some(map["detected_distortion" := Some(Unanalysable)])) == []
    ensures DistortionTags(Some(map[])) == [] && DistortionTags(None) == []
  {
  }

  // ---------------------------------------------------------------------------
  // get_session_history
  // ---------------------------------------------------------------------------

  /** A row of the message query: the user's input, the bot response and the
      time of the turn. */
  datatype MessageRow = MessageRow(userInput: string, bot: BotResponse, createdAt: string)

  datatype Role = User | Assistant

  datatype ChatMessage = ChatMessage(role: Role, content: string, timestamp: string,
                                     distortion: Option<string>, empathy: Option<string>)

  datatype History = History(sessionId: string, messages: seq<ChatMessage>, totalPage: int, currentPage: int)

  /** `f"{bot_res.get(key, '')}"`: an absent key renders as nothing, a JSON
      `null` as "None". */
  function Render(fields: map<string, Option<string>>, key: string): string {
    if key !in fields then "" else Show(fields[key])
  }

  /** The assistant's text: empathy, a space and the Socratic question,
      stripped. */
  function ReplyText(bot: BotResponse): string {
    Strip(Render(Fields(bot), "empathy") + " " + Render(Fields(bot), "socratic_question"))
  }

  /** The reply of a turn whose empathy and question render as trimmed
      texts is the two joined by one space. */
  lemma ReplyTextJoined(bot: BotResponse, empathy: string, question: string)
    requires Render(Fields(bot), "empathy") == empathy && Render(Fields(bot), "socratic_question") == question
    requires Trimmed(empathy) && Trimmed(question)
    ensures ReplyText(bot) == empathy + " " + question
  {
    var s := empathy + " " + question;
    assert s[0] == empathy[0] && s[|s| - 1] == question[|question| - 1];
    StripUnchanged(s);
  }

  /** A turn with neither part, or with a response that is not an object,
      has an empty reply. */
  lemma ReplyTextEmpty()
    ensures ReplyText(Some(map[])) == "" && ReplyText(None) == ""
  {
    StripEmpty(" ");
  }

  /** The two messages of a stored turn: the user's input, then the reply
      with the turn's distortion and empathy, both at the turn's time. */
  function TurnMessages(row: MessageRow): (r: seq<ChatMessage>)
    ensures |r| == 2 && r[0].role == User && r[1].role == Assistant
    ensures r[0].content == row.userInput
    ensures r[0].timestamp == row.createdAt && r[1].timestamp == row.createdAt
    ensures r[1].distortion == Get(Fields(row.bot), "detected_distortion")
    ensures r[1].empathy == Get(Fields(row.bot), "empathy")
  {
    [ChatMessage(User, row.userInput, row.createdAt, None, None),
     ChatMessage(Assistant, ReplyText(row.bot), row.createdAt,
                 Get(Fields(row.bot), "detected_distortion"), Get(Fields(row.bot), "empathy"))]
  }

  /** The reply's text is the stripped empathy and question. */
  lemma TurnReply(row: MessageRow)
    ensures TurnMessages(row)[1].content == ReplyText(row.bot)
  {
  }

  /** The messages of a list of turns, in order. */
  function Messages(rows: seq<MessageRow>): (r: seq<ChatMessage>)
    ensures |r| == 2 * |rows|
    decreases |rows|
  {
    if rows == [] then [] else Messages(rows[..|rows| - 1]) + TurnMessages(rows[|rows| - 1])
  }

  /** Turn `i` owns messages `2i` (the user's) and `2i + 1` (the reply). */
  lemma {:induction false} MessagesAt(rows: seq<MessageRow>, i: nat)
    requires i < |rows|
    ensures Messages(rows)[2 * i] == TurnMessages(rows[i])[0]
    ensures Messages(rows)[2 * i + 1] == TurnMessages(rows[i])[1]
    decreases |rows|
  {
    var init := rows[..|rows| - 1];
    if i < |rows| - 1 {
      MessagesAt(init, i);
      assert init[i] == rows[i];
    }
  }

  /** The messages of the first `i + 1` turns extend those of the first `i`. */
  lemma MessagesStep(rows: seq<MessageRow>, i: nat)
    requires i < |rows|
    ensures Messages(rows[..i + 1]) == Messages(rows[..i]) + TurnMessages(rows[i])
  {
    var upto := rows[..i + 1];
    assert upto[..i] == rows[..i] && upto[i] == rows[i];
  }

  /** The row offset of a page: `(page - 1) * 20`. */
  function Offset(page: int): (r: int)
    ensures page >= 1 ==> r >= 0 && r / PageSize == page - 1 && r % PageSize == 0
  {
    (page - 1) * PageSize
  }

  /** `total_page` as written: `total_cnt // 20 + 1` for a non-empty session,
      otherwise 1; that is, one more than the number of full 20-row pages. */
  function TotalPageAsWritten(total: int): (r: int)
    ensures r >= 1
    ensures total > 0 ==> (r - 1) * PageSize <= total < r * PageSize
  {
    if total > 0 then total / PageSize + 1 else 1
  }

  /** As written, a session of exactly 20 messages reports a second page,
      and that page's offset is past the last message. */
  lemma TotalPageAsWrittenOverCounts()
    ensures TotalPageAsWritten(20) == 2
    ensures Offset(TotalPageAsWritten(20)) >= 20
  {
  }

  /** The number of pages the messages fill: at least one, and for a
      non-empty session the smallest count of 20-row pages that holds them. */
  function PageCount(total: int): (r: int)
    ensures r >= 1
    ensures total > 0 ==> (r - 1) * PageSize < total <= r * PageSize
  {
    if total > 0 then (total + PageSize - 1) / PageSize else 1
  }

  /** Every page the corrected count reports starts at a stored row, and the
      count differs from the written one exactly on multiples of 20. */
  lemma PageCountCorrect(total: int, page: int)
    requires 1 <= page <= PageCount(total) && total > 0
    ensures 0 <= Offset(page) < total
    ensures PageCount(total) != TotalPageAsWritten(total) <==> total % PageSize == 0
  {
  }

  /** `ChatService.get_session_history`: the page's rows are asked for with
      size 20 at offset `(page - 1) * 20`; each row gives the user's message
      and the reply; the page count is computed from the row total as the
      code writes it, and the current page echoes the request. `fetch` is the repository query: rows and
      total for a session, size and offset. */
  method GetSessionHistory(sessionId: string, page: int, fetch: (string, int, int) -> (seq<MessageRow>, int))
    returns (r: History)
    ensures r.messages == Messages(fetch(sessionId, PageSize, Offset(page)).0)
    ensures r.totalPage == TotalPageAsWritten(fetch(sessionId, PageSize, Offset(page)).1)
    ensures r.sessionId == sessionId && r.currentPage == page
  {
    var reply := fetch(sessionId, PageSize, Offset(page));
    var rows := reply.0;
    var messages: seq<ChatMessage> := [];
    for i := 0 to |rows|
      invariant messages == Messages(rows[..i])
    {
      MessagesStep(rows, i);
      messages := messages + TurnMessages(rows[i]);
    }
    assert rows[..|rows|] == rows;
    r := History(sessionId, messages, TotalPageAsWritten(reply.1), page);
  }

  /** A single stored turn gives exactly its two messages. */
  lemma MessagesSingle(row: MessageRow)
    ensures Messages([row]) == TurnMessages(row)
  {
    MessagesStep([row], 0);
    assert [row][..1] == [row] && [row][..0] == [];
  }

  /** A stored turn whose empathy and question are trimmed texts gives the
      user's message and then the two parts joined by one space, both at the
      turn's time. */
  lemma TurnOfParts(input: string, empathy: string, question: string, t: string)
    requires Trimmed(empathy) && Trimmed(question)
    ensures Messages([MessageRow(input, Some(map["empathy" := Some(empathy), "socratic_question" := Some(question)]), t)]) ==
      [ChatMessage(User, input, t, None, None),
       ChatMessage(Assistant, empathy + " " + question, t, None, Some(empathy))]
  {
    var bot := Some(map["empathy" := Some(empathy), "socratic_question" := Some(question)]);
    var row := MessageRow(input, bot, t);
    MessagesSingle(row);
    TurnReply(row);
    TurnOfPartsFields(bot, empathy, question);
    TurnOfPartsReply(bot, empathy, question);
  }

  /** The reply of such a turn. */
  lemma TurnOfPartsReply(bot: BotResponse, empathy: string, question: string)
    requires bot == Some(map["empathy" := Some(empathy), "socratic_question" := Some(question)])
    requires Trimmed(empathy) && Trimmed(question)
    ensures ReplyText(bot) == empathy + " " + question
  {
    TurnOfPartsFields(bot, empathy, question);
    ReplyTextJoined(bot, empathy, question);
  }

  /** The fields of such a turn. */
  lemma TurnOfPartsFields(bot: BotResponse, empathy: string, question: string)
    requires bot == Some(map["empathy" := Some(empathy), "socratic_question" := Some(question)])
    ensures Render(Fields(bot), "empathy") == empathy && Render(Fields(bot), "socratic_question") == question
    ensures Get(Fields(bot), "detected_distortion") == None && Get(Fields(bot), "empathy") == Some(empathy)
  {
  }

  /** The history test's stored turn: it gives two messages, the user's
      text and then the assistant's reply "그렇지 않아요. 왜죠?". */
  lemma HistoryTestTurn(t: string)
    ensures var msgs := Messages([MessageRow("나는 바보야", Some(map["empathy" := Some("그렇지 않아요."), "socratic_question" := Some("왜죠?")]), t)]);
      |msgs| == 2 && msgs[0].role == User && msgs[0].content == "나는 바보야" &&
      msgs[1].role == Assistant && msgs[1].content == "그렇지 않아요. 왜죠?"
  {
    var empathy, question := "그렇지 않아요.", "왜죠?";
    assert Trimmed(empathy) by {
      assert !IsSpace(empathy[0]) && !IsSpace(empathy[|empathy| - 1]);
    }
    assert Trimmed(question) by {
      assert !IsSpace(question[0]) && !IsSpace(question[|question| - 1]);
    }
    TurnOfParts("나는 바보야", empathy, question, t);
    assert empathy + " " + question == "그렇지 않아요. 왜죠?";
  }
}
