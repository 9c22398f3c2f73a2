/** The question-answering helpers around the retrieval-augmented chat: text truncation, the
    selection of retrieved passages, the recent conversation read back from the chat log, the gate
    that decides whether a question is on topic, and the message list sent to the language model.
    The embedding model, the vector index and the language model itself are parameters: an index
    search is given as its result indices and top distance, and a model call as a function whose
    `None` stands for a raised exception. */
module RagPrompt {
  import opened Wrappers
  import opened Text
  import opened Sorting

  const TOP_K := 3
  const SIMILARITY_THRESHOLD: real := 1.2
  const LOG_RETENTION_HOURS := 24
  /** Instants are counted in seconds. */
  const RETENTION_SECONDS := LOG_RETENTION_HOURS * 3600
  const CONTEXT_CHARS := 400
  const FLOW_QUESTIONS := 5
  const HISTORY_MESSAGES := 10

  const ALLOWED_KEYWORDS: seq<string> := [
    // the animal itself
    "도마뱀", "게코", "레오파드게코", "레오파드", "파충류", "생물",
    // behaviour and stress
    "스트레스", "움직임", "움직이지", "가만히", "멍", "반응 없음", "공격", "물었", "위협", "도망", "숨었", "행동 변화",
    // feeding
    "먹이", "식욕", "밥", "안 먹", "잘 먹", "급여", "사료", "강제급여", "코오로기", "밀웜", "소화", "체중",
    // enclosure
    "온도", "습도", "조명", "UVB", "바닥재", "히터", "매트", "케이지", "사육장", "환경", "은신처", "배경지", "청소", "설치", "환기",
    // health
    "탈피", "기생충", "상처", "눈", "피부", "꼬리", "부러짐", "질병", "감염", "건강", "비정상", "증상", "창백", "색이 변함", "혈변", "구토", "약",
    // droppings
    "똥", "배변", "변", "설사", "소변", "대변", "배설", "화장실", "변비",
    // growth and age
    "성장", "크기", "나이", "몇 살", "수명", "언제 성체", "성체", "노령", "노화",
    // care and cleaning
    "청소", "위생", "주기", "물", "정수", "먹이통", "온도계", "습도계",
    // vets and costs
    "병원", "진료", "진료비", "가격", "비용", "치료", "수의사", "약값", "진단", "검사", "예약",
    // housing together and breeding
    "합사", "싸움", "무는", "같이 키워", "수컷", "암컷", "번식", "교배", "임신", "알",
    // sleep
    "잠", "자는", "낮잠", "밤에 움직", "야행성", "낮에도 움직", "활동 시간",
    // everyday questions
    "추천", "초보", "처음", "키우기 쉬운", "처음 키움", "장비", "장점", "단점", "주의사항", "기초", "처방", "상담", "소리", "울음소리",
    // conversational phrases
    "안녕", "하이", "ㅎㅇ", "있어?", "있나요", "있음?", "있니", "어때", "그래서", "응", "맞아", "그럼",
    "근데", "혹시", "이건", "그건", "이게", "저기", "잠깐", "계속", "뭐더라", "그거", "이렇게", "저렇게",
    "다시", "계속해", "이어서", "추가로", "말해줘", "좀 더", "조금 더", "정리해줘", "도와줘", "설명해줘",
    "뭐야", "뭔데", "왜", "어떻게", "알려줘", "말해", "답해줘", "뭔가", "그니까", "그런데", "또", "계속", "그러면"
  ]

  const OFF_TOPIC_REPLY := "❗ 이 시스템은 도마뱀 관련 질문만 처리합니다."
  const PET_NOT_FOUND_REPLY := "죄송합니다. 해당 반려동물 정보를 찾을 수 없거나 접근 권한이 없습니다."
  const SERVICE_ERROR_REPLY := "죄송합니다. 현재 AI 서비스에 일시적인 문제가 발생했습니다. 잠시 후 다시 시도해주세요."
  const SYSTEM_PROMPT := "당신은 도마뱀 사육 전문가입니다."

  // ---------------------------------------------------------------- truncation

  /** `truncate_text`: `None` and the empty string give the empty string, a text that fits is
      kept, and a longer one is cut to `maxChars` characters followed by an ellipsis. */
  function TruncateText(text: Option<string>, maxChars: nat): (r: string)
    ensures text.None? ==> r == []
    ensures |r| <= maxChars + 3
    ensures text.Some? && |r| <= maxChars ==> r == text.value
    ensures text.Some? && |text.value| > maxChars ==>
      |r| == maxChars + 3 && r[..maxChars] == text.value[..maxChars] && r[maxChars..] == "..."
  {
    if text.None? || text.value == [] then ""
    else if |text.value| <= maxChars then text.value
    else text.value[..maxChars] + "..."
  }

  /** Truncating a truncated text changes nothing more. */
  lemma TruncateTextIdempotent(text: Option<string>, maxChars: nat)
    ensures TruncateText(Some(TruncateText(text, maxChars)), maxChars) == TruncateText(text, maxChars)
  {
    var r := TruncateText(text, maxChars);
    if text.Some? && |text.value| > maxChars {
      assert r[..maxChars] + "..." == r;
    }
  }

  // ---------------------------------------------------------------- retrieval

  /** The passages kept for the result indices of an index search: every index that names a
      passage, in the order of the search, while the indices the index marks as missing (`-1`)
      and any other negative index are dropped. */
  function Retrieved<T>(indices: seq<int>, metadata: seq<T>): (r: seq<T>)
    ensures |r| <= |indices|
  {
    if indices == [] then []
    else
      var idx := indices[|indices| - 1];
      Retrieved(indices[..|indices| - 1], metadata) + (if 0 <= idx < |metadata| then [metadata[idx]] else [])
  }

  /** `retrieve` over the indices of the one query row, with its `-1` entries dropped. */
  method Retrieve<T>(indices: seq<int>, metadata: seq<T>) returns (results: seq<T>)
    ensures results == Retrieved(indices, metadata)
  {
    results := [];
    var i := 0;
    while i < |indices|
      invariant 0 <= i <= |indices|
      invariant results == Retrieved(indices[..i], metadata)
    {
      assert indices[..i + 1][..i] == indices[..i];
      var idx := indices[i];
      if 0 <= idx < |metadata| {
        results := results + [metadata[idx]];
      }
      i := i + 1;
    }
    assert indices[..|indices|] == indices;
  }

  /** Every kept passage is the passage of an in-range index of the search. */
  lemma {:induction false} RetrievedFromIndices<T>(indices: seq<int>, metadata: seq<T>)
    ensures forall x :: x in Retrieved(indices, metadata) ==>
      exists j :: 0 <= j < |indices| && 0 <= indices[j] < |metadata| && metadata[indices[j]] == x
  {
    if indices != [] {
      var init := indices[..|indices| - 1];
      RetrievedFromIndices(init, metadata);
      forall x | x in Retrieved(indices, metadata)
        ensures exists j :: 0 <= j < |indices| && 0 <= indices[j] < |metadata| && metadata[indices[j]] == x
      {
        if x in Retrieved(init, metadata) {
          var j :| 0 <= j < |init| && 0 <= init[j] < |metadata| && metadata[init[j]] == x;
          assert indices[j] == init[j];
        } else {
          assert 0 <= indices[|indices| - 1] < |metadata| && metadata[indices[|indices| - 1]] == x;
        }
      }
    }
  }

  /** When every index names a passage, all of them are kept, in order. */
  lemma {:induction false} RetrievedAllInRange<T>(indices: seq<int>, metadata: seq<T>)
    requires forall j :: 0 <= j < |indices| ==> 0 <= indices[j] < |metadata|
    ensures |Retrieved(indices, metadata)| == |indices|
    ensures forall j :: 0 <= j < |indices| ==> Retrieved(indices, metadata)[j] == metadata[indices[j]]
  {
    if indices != [] {
      var init, idx := indices[..|indices| - 1], indices[|indices| - 1];
      assert forall j :: 0 <= j < |init| ==> init[j] == indices[j];
      RetrievedAllInRange(init, metadata);
      var prev := Retrieved(init, metadata);
      assert Retrieved(indices, metadata) == prev + [metadata[idx]];
      assert forall j :: 0 <= j < |init| ==> (prev + [metadata[idx]])[j] == prev[j];
    }
  }

  /** A missing hit adds nothing. */
  lemma RetrievedSkipsMissing<T>(indices: seq<int>, metadata: seq<T>)
    ensures Retrieved(indices + [-1], metadata) == Retrieved(indices, metadata)
  {
    assert (indices + [-1])[..|indices|] == indices;
  }

  /** `retrieve` as written: the guard `idx < len(metadata)` lets a negative index through, and
      Python's indexing then counts it from the end, so the missing-hit marker `-1` selects the
      last passage; an index below `-len(metadata)` raises `IndexError` (`None`). */
  function RetrievedAsWritten<T>(indices: seq<int>, metadata: seq<T>): (r: Option<seq<T>>)
    ensures r.Some? ==> |r.value| <= |indices|
  {
    if indices == [] then Some([])
    else
      var prev := RetrievedAsWritten(indices[..|indices| - 1], metadata);
      var idx := indices[|indices| - 1];
      if prev.None? then None
      else if idx >= |metadata| then prev
      else if idx >= 0 then Some(prev.value + [metadata[idx]])
      else if idx >= -|metadata| then Some(prev.value + [metadata[|metadata| + idx]])
      else None
  }

  /** Without negative indices the code as written keeps exactly the passages of `Retrieved`. */
  lemma {:induction false} AsWrittenAgreesWithoutNegatives<T>(indices: seq<int>, metadata: seq<T>)
    requires forall j :: 0 <= j < |indices| ==> indices[j] >= 0
    ensures RetrievedAsWritten(indices, metadata) == Some(Retrieved(indices, metadata))
  {
    if indices != [] {
      var init := indices[..|indices| - 1];
      AsWrittenAgreesWithoutNegatives(init, metadata);
      var idx := indices[|indices| - 1];
      var prev := Retrieved(init, metadata);
      assert RetrievedAsWritten(init, metadata) == Some(prev);
      if idx < |metadata| {
        assert RetrievedAsWritten(indices, metadata) == Some(prev + [metadata[idx]]);
      } else {
        assert RetrievedAsWritten(indices, metadata) == Some(prev);
        assert Retrieved(indices, metadata) == prev + [];
        assert prev + [] == prev;
      }
    }
  }

  /** As written, a missing hit repeats the last passage of a non-empty corpus. */
  lemma MissingHitSelectsLast<T>(indices: seq<int>, metadata: seq<T>)
    requires |metadata| > 0 && RetrievedAsWritten(indices, metadata).Some?
    ensures RetrievedAsWritten(indices + [-1], metadata)
      == Some(RetrievedAsWritten(indices, metadata).value + [metadata[|metadata| - 1]])
  {
    assert (indices + [-1])[..|indices|] == indices;
  }

  /** A corpus of two passages searched with the top three: a flat index answers both passages
      and then the missing-hit marker, `[1, 0, -1]`; the code as written returns the second
      passage again for the marker, and `Retrieved` drops it. */
  lemma ShortCorpusRepeatsLast<T>(a: T, b: T)
    ensures RetrievedAsWritten([1, 0, -1], [a, b]) == Some([b, a, b])
    ensures Retrieved([1, 0, -1], [a, b]) == [b, a]
  {
    var m := [a, b];
    assert [1][..0] == [];
    assert RetrievedAsWritten([], m) == Some([]);
    assert RetrievedAsWritten([1], m) == Some([] + [m[1]]);
    assert [] + [m[1]] == [b];
    assert Retrieved([1], m) == [b];
    assert [1, 0][..1] == [1];
    assert RetrievedAsWritten([1, 0], m) == Some([b] + [m[0]]);
    assert [b] + [m[0]] == [b, a];
    assert Retrieved([1, 0], m) == [b, a];
    MissingHitSelectsLast([1, 0], m);
    RetrievedSkipsMissing([1, 0], m);
    assert [1, 0] + [-1] == [1, 0, -1];
    assert [b, a] + [m[1]] == [b, a, b];
    assert Retrieved([1, 0, -1], m) == [b, a];
  }

  /** `handle_query`: a top distance above the threshold replaces the passages by one empty one. */
  function SelectContexts(retrieved: seq<Option<string>>, topDistance: real): (r: seq<Option<string>>)
    ensures topDistance > SIMILARITY_THRESHOLD ==> r == [Some("")]
    ensures topDistance <= SIMILARITY_THRESHOLD ==> r == retrieved
  {
    if topDistance > SIMILARITY_THRESHOLD then [Some("")] else retrieved
  }

  // ---------------------------------------------------------------- conversation history

  /** A chat log row: the creation instant (nullable), the question and the answer. */
  datatype Chat = Chat(createdAt: Option<int>, question: string, answer: Option<string>)

  /** A conversation entry: `{"role": "user", "question": …}` or `{"role": "assistant", "answer": …}`. */
  datatype Turn = UserTurn(question: string) | AssistantTurn(answer: string)

  predicate After(c: Chat, cutoff: int) {
    c.createdAt.Some? && c.createdAt.value > cutoff
  }

  function CreatedKey(c: Chat): int {
    if c.createdAt.Some? then c.createdAt.value else 0
  }

  /** The chats created strictly after the cutoff, in log order. */
  function Recent(chats: seq<Chat>, cutoff: int): (r: seq<Chat>)
    ensures forall i :: 0 <= i < |r| ==> After(r[i], cutoff)
  {
    if chats == [] then []
    else (if After(chats[0], cutoff) then [chats[0]] else []) + Recent(chats[1..], cutoff)
  }

  /** A chat is recent exactly when it is in the log and was created after the cutoff. */
  lemma {:induction false} RecentMembers(chats: seq<Chat>, cutoff: int, c: Chat)
    ensures c in Recent(chats, cutoff) <==> c in chats && After(c, cutoff)
  {
    if chats != [] {
      RecentMembers(chats[1..], cutoff, c);
      assert chats == [chats[0]] + chats[1..];
    }
  }

  /** The entries of one chat: its question, then its answer when that is non-empty. */
  function TurnsOf(c: Chat): seq<Turn> {
    [UserTurn(c.question)] + (if c.answer.Some? && c.answer.value != [] then [AssistantTurn(c.answer.value)] else [])
  }

  function ConversationOf(chats: seq<Chat>): seq<Turn> {
    if chats == [] then [] else ConversationOf(chats[..|chats| - 1]) + TurnsOf(chats[|chats| - 1])
  }

  /** `load_recent_conversation_from_db` on the rows of the user, `now` being the current instant:
      the chats of the last day, sorted by creation instant (a stable sort), as entries. */
  method LoadRecentConversation(chats: seq<Chat>, now: int) returns (conversation: seq<Turn>)
    ensures conversation == ConversationOf(SortByKey(Recent(chats, now - RETENTION_SECONDS), CreatedKey))
  {
    var recentChats := SortByKey(Recent(chats, now - RETENTION_SECONDS), CreatedKey);
    conversation := Conversation(recentChats);
  }

  /** The loop of `load_recent_conversation_from_db`: the entries of the chats, in order. */
  method Conversation(recentChats: seq<Chat>) returns (conversation: seq<Turn>)
    ensures conversation == ConversationOf(recentChats)
  {
    conversation := [];
    var i := 0;
    while i < |recentChats|
      invariant 0 <= i <= |recentChats|
      invariant conversation == ConversationOf(recentChats[..i])
    {
      var chat := recentChats[i];
      ConversationStep(recentChats, i);
      conversation := conversation + [UserTurn(chat.question)];
      if chat.answer.Some? && chat.answer.value != [] {
        conversation := conversation + [AssistantTurn(chat.answer.value)];
      }
      i := i + 1;
    }
    assert recentChats[..|recentChats|] == recentChats;
  }

  lemma ConversationStep(s: seq<Chat>, i: nat)
    requires i < |s|
    ensures ConversationOf(s[..i + 1]) == ConversationOf(s[..i]) + TurnsOf(s[i])
  {
    assert s[..i + 1][..i] == s[..i];
  }

  /** The chats of the history are those after the cutoff, each once as it occurs in the log, and
      oldest first. */
  lemma RecentSorted(chats: seq<Chat>, cutoff: int)
    ensures SortedBy(SortByKey(Recent(chats, cutoff), CreatedKey), CreatedKey)
    ensures multiset(SortByKey(Recent(chats, cutoff), CreatedKey)) == multiset(Recent(chats, cutoff))
    ensures forall i :: 0 <= i < |SortByKey(Recent(chats, cutoff), CreatedKey)| ==>
      After(SortByKey(Recent(chats, cutoff), CreatedKey)[i], cutoff)
  {
    var s := SortByKey(Recent(chats, cutoff), CreatedKey);
    SortByKeySorted(Recent(chats, cutoff), CreatedKey);
    forall i | 0 <= i < |s| ensures After(s[i], cutoff) {
      assert s[i] in multiset(Recent(chats, cutoff));
    }
  }

  /** The questions of the user entries, in order. */
  function UserQuestions(turns: seq<Turn>): (r: seq<string>)
    ensures |r| <= |turns|
  {
    if turns == [] then []
    else
      var t := turns[|turns| - 1];
      UserQuestions(turns[..|turns| - 1]) + (if t.UserTurn? then [t.question] else [])
  }

  lemma {:induction false} UserQuestionsConcat(a: seq<Turn>, b: seq<Turn>)
    ensures UserQuestions(a + b) == UserQuestions(a) + UserQuestions(b)
    decreases |b|
  {
    if b != [] {
      var init, t := b[..|b| - 1], b[|b| - 1];
      assert UserQuestions(a + b) == UserQuestions(a + init) + (if t.UserTurn? then [t.question] else []) by {
        assert (a + b)[..|a + b| - 1] == a + init;
        assert (a + b)[|a + b| - 1] == t;
      }
      UserQuestionsConcat(a, init);
      StringsRegroup(UserQuestions(a), UserQuestions(init), if t.UserTurn? then [t.question] else []);
    } else {
      assert a + b == a;
    }
  }

  lemma StringsRegroup(p: seq<string>, q: seq<string>, r: seq<string>)
    ensures (p + q) + r == p + (q + r)
  {
  }

  function Questions(chats: seq<Chat>): (r: seq<string>)
    ensures |r| == |chats| && forall i :: 0 <= i < |chats| ==> r[i] == chats[i].question
  {
    seq(|chats|, i requires 0 <= i < |chats| => chats[i].question)
  }

  /** The conversation has one user entry per chat, carrying the chats' questions in order, and
      every assistant entry carries a non-empty answer. */
  lemma ConversationEntries(chats: seq<Chat>)
    ensures UserQuestions(ConversationOf(chats)) == Questions(chats)
    ensures forall t :: t in ConversationOf(chats) && t.AssistantTurn? ==> t.answer != []
  {
    ConversationQuestions(chats);
    ConversationAnswers(chats);
  }

  lemma {:induction false} ConversationQuestions(chats: seq<Chat>)
    ensures UserQuestions(ConversationOf(chats)) == Questions(chats)
  {
    if chats != [] {
      var init, c := chats[..|chats| - 1], chats[|chats| - 1];
      ConversationQuestions(init);
      UserQuestionsConcat(ConversationOf(init), TurnsOf(c));
      TurnsQuestions(c);
      assert Questions(chats) == Questions(init) + [c.question];
    }
  }

  lemma {:induction false} ConversationAnswers(chats: seq<Chat>)
    ensures forall t :: t in ConversationOf(chats) && t.AssistantTurn? ==> t.answer != []
  {
    if chats != [] {
      var init, c := chats[..|chats| - 1], chats[|chats| - 1];
      ConversationAnswers(init);
      assert forall t :: t in TurnsOf(c) && t.AssistantTurn? ==> t.answer != [];
      assert ConversationOf(chats) == ConversationOf(init) + TurnsOf(c);
    }
  }

  /** A chat gives one user entry, with its question. */
  lemma TurnsQuestions(c: Chat)
    ensures UserQuestions(TurnsOf(c)) == [c.question]
  {
    var u := UserTurn(c.question);
    assert UserQuestions([u]) == [c.question] by {
      assert [u][..0] == [];
    }
    if c.answer.Some? && c.answer.value != [] {
      var a := AssistantTurn(c.answer.value);
      assert TurnsOf(c) == [u] + [a];
      UserQuestionsConcat([u], [a]);
      assert UserQuestions([a]) == [] by {
        assert [a][..0] == [];
      }
    } else {
      assert TurnsOf(c) == [u];
    }
  }

  /** The number of entries: one per chat and one more per chat with a non-empty answer. */
  function AnsweredCount(chats: seq<Chat>): nat {
    if chats == [] then 0
    else
      var c := chats[|chats| - 1];
      AnsweredCount(chats[..|chats| - 1]) + (if c.answer.Some? && c.answer.value != [] then 1 else 0)
  }

  lemma {:induction false} ConversationLength(chats: seq<Chat>)
    ensures |ConversationOf(chats)| == |chats| + AnsweredCount(chats)
  {
    if chats != [] {
      ConversationLength(chats[..|chats| - 1]);
    }
  }

  // ---------------------------------------------------------------- the topic gate

  /** `reversed(s)`. */
  function Reverse<T>(s: seq<T>): (r: seq<T>)
    ensures |r| == |s| && forall i :: 0 <= i < |s| ==> r[i] == s[|s| - 1 - i]
  {
    seq(|s|, i requires 0 <= i < |s| => s[|s| - 1 - i])
  }

  function Min(a: nat, b: nat): nat { if a <= b then a else b }

  /** `last_user_questions`: the questions of the user entries read newest first, at most five. */
  function NewestQuestions(history: seq<Turn>): seq<string> {
    var q := Reverse(UserQuestions(history));
    q[..Min(FLOW_QUESTIONS, |q|)]
  }

  /** The numbered questions placed before the query in the classifier's prompt, read back in
      `reversed` order. */
  function FlowQuestions(history: seq<Turn>): seq<string> {
    Reverse(NewestQuestions(history))
  }

  /** The prompt shows at most the last five questions of the user, oldest first. */
  lemma FlowQuestionsAreLastFive(history: seq<Turn>)
    ensures var q := UserQuestions(history);
      FlowQuestions(history) == q[|q| - Min(FLOW_QUESTIONS, |q|)..]
  {
    var q := UserQuestions(history);
    var k := Min(FLOW_QUESTIONS, |q|);
    var f := FlowQuestions(history);
    assert |f| == k;
    forall i | 0 <= i < k ensures f[i] == q[|q| - k + i] {
      assert f[i] == NewestQuestions(history)[k - 1 - i];
    }
  }

  /** `any(k.replace(" ", "") in query.replace(" ", "") for k in ALLOWED_KEYWORDS)`. */
  predicate KeywordMatch(query: string) {
    exists k :: k in ALLOWED_KEYWORDS && Contains(RemoveChar(query, ' '), RemoveChar(k, ' '))
  }

  /** `result.strip().upper() == "Y"` for the classifier's reply; `None` is a raised exception,
      which lets the query through. */
  predicate ClassifierAccepts(reply: Option<string>) {
    reply.None? || Upper(Strip(reply.value)) == "Y"
  }

  /** `is_valid_query`: `history` is the loaded conversation (empty without a session or after a
      failed load), and `classify` is the model's reply to the prompt built from the previous
      questions and the query. */
  predicate IsValidQuery(query: string, history: seq<Turn>, classify: (seq<string>, string) -> Option<string>) {
    if Strip(query) == [] then false
    else if KeywordMatch(query) then true
    else ClassifierAccepts(classify(FlowQuestions(history), query))
  }

  /** A query of white space alone is rejected, whatever the classifier would say. */
  lemma BlankQueryRejected(query: string, history: seq<Turn>, classify: (seq<string>, string) -> Option<string>)
    requires forall i :: 0 <= i < |query| ==> IsSpace(query[i])
    ensures !IsValidQuery(query, history, classify)
  {
    StripEmptyIffAllSpace(query);
  }

  /** A non-blank query containing an allowed keyword, spaces ignored on both sides, is accepted
      and the classifier is not consulted. */
  lemma KeywordQueryAccepted(query: string, keyword: string, history: seq<Turn>,
                             classify: (seq<string>, string) -> Option<string>, other: (seq<string>, string) -> Option<string>)
    requires !(forall i :: 0 <= i < |query| ==> IsSpace(query[i]))
    requires keyword in ALLOWED_KEYWORDS && Contains(RemoveChar(query, ' '), RemoveChar(keyword, ' '))
    ensures IsValidQuery(query, history, classify)
    ensures IsValidQuery(query, history, classify) == IsValidQuery(query, history, other)
  {
    StripEmptyIffAllSpace(query);
  }

  /** Otherwise the classifier decides: the query passes exactly when the reply, stripped and
      upper-cased, is `Y`, or when the call raised. */
  lemma ClassifierDecides(query: string, history: seq<Turn>, classify: (seq<string>, string) -> Option<string>)
    requires !(forall i :: 0 <= i < |query| ==> IsSpace(query[i])) && !KeywordMatch(query)
    ensures IsValidQuery(query, history, classify) <==> ClassifierAccepts(classify(FlowQuestions(history), query))
  {
    StripEmptyIffAllSpace(query);
  }

  /** A lower-case `y` surrounded by white space is an acceptance, and so is a failed call. */
  lemma ClassifierReplies(reply: string)
    requires Strip(reply) == "y"
    ensures ClassifierAccepts(Some(reply)) && ClassifierAccepts(None)
  {
    assert Upper(Strip(reply)) == [UpperChar('y')];
  }

  /** A non-blank query that contains an allowed keyword with its spaces taken out is accepted,
      wherever spaces fall in the rest of the query. */
  lemma KeywordWithoutSpacesAccepted(pre: string, keyword: string, post: string, history: seq<Turn>,
                                     classify: (seq<string>, string) -> Option<string>)
    requires keyword in ALLOWED_KEYWORDS
    requires !(forall i :: 0 <= i < |pre + RemoveChar(keyword, ' ') + post| ==> IsSpace((pre + RemoveChar(keyword, ' ') + post)[i]))
    ensures IsValidQuery(pre + RemoveChar(keyword, ' ') + post, history, classify)
  {
    var k := RemoveChar(keyword, ' ');
    ContainsWithoutSpaces(pre, k, post);
    KeywordQueryAccepted(pre + k + post, keyword, history, classify, classify);
  }

  lemma ContainsWithoutSpaces(pre: string, k: string, post: string)
    requires ' ' !in k
    ensures Contains(RemoveChar(pre + k + post, ' '), k)
  {
    RemoveCharConcat(pre + k, post, ' ');
    RemoveCharConcat(pre, k, ' ');
    RemoveCharAbsent(k, ' ');
    ContainsMiddle(RemoveChar(pre, ' '), k, RemoveChar(post, ' '));
  }

  // ---------------------------------------------------------------- the answer prompt

  datatype Role = System | User | Assistant
  datatype Message = Message(role: Role, content: string)

  /** A conversation entry as a chat message. */
  function MessageOf(t: Turn): Message {
    match t
    case UserTurn(q) => Message(User, q)
    case AssistantTurn(a) => Message(Assistant, a)
  }

  /** Python's `s[-n:]`. */
  function LastN<T>(s: seq<T>, n: nat): (r: seq<T>)
    ensures |r| == Min(n, |s|) && r == s[|s| - |r|..]
  {
    s[|s| - Min(n, |s|)..]
  }

  /** `generate_answer`'s message list: the system prompt, the last ten entries of the history
      and the final user message. */
  function MessageHistory(history: seq<Turn>, finalContent: string): seq<Message> {
    var recent := LastN(history, HISTORY_MESSAGES);
    [Message(System, SYSTEM_PROMPT)]
      + seq(|recent|, i requires 0 <= i < |recent| => MessageOf(recent[i]))
      + [Message(User, finalContent)]
  }

  /** The prompt opens with the system message, carries at most the last ten entries of the
      history with their roles, and closes with the final user message. */
  lemma MessageHistoryShape(history: seq<Turn>, finalContent: string)
    ensures var m := MessageHistory(history, finalContent); var k := Min(HISTORY_MESSAGES, |history|);
      |m| == k + 2 && m[0] == Message(System, SYSTEM_PROMPT) && m[k + 1] == Message(User, finalContent)
      && (forall i :: 1 <= i <= k ==> m[i] == MessageOf(history[|history| - k + i - 1]))
      && (forall i :: 1 <= i <= k ==> (m[i].role == User <==> history[|history| - k + i - 1].UserTurn?))
  {
  }

  /** `"\n".join(...)`, which is empty for no parts. */
  function JoinLines(parts: seq<string>): string {
    if parts == [] then "" else Join(parts, '\n')
  }

  /** `context_text`: every passage cut to 400 characters, one per line. */
  function ContextText(contexts: seq<Option<string>>): string {
    JoinLines(seq(|contexts|, i requires 0 <= i < |contexts| => TruncateText(contexts[i], CONTEXT_CHARS)))
  }

  /** Passages without line breaks are read back one per line, each within 403 characters. */
  lemma ContextLines(contexts: seq<Option<string>>)
    requires contexts != []
    requires forall i :: 0 <= i < |contexts| && contexts[i].Some? ==> '\n' !in contexts[i].value
    ensures var lines := Split(ContextText(contexts), '\n');
      |lines| == |contexts| && forall i :: 0 <= i < |contexts| ==>
        lines[i] == TruncateText(contexts[i], CONTEXT_CHARS) && |lines[i]| <= CONTEXT_CHARS + 3
  {
    var parts := seq(|contexts|, i requires 0 <= i < |contexts| => TruncateText(contexts[i], CONTEXT_CHARS));
    forall i | 0 <= i < |parts| ensures '\n' !in parts[i] {
      var r := parts[i];
      if contexts[i].Some? && |contexts[i].value| > CONTEXT_CHARS {
        assert r == contexts[i].value[..CONTEXT_CHARS] + "...";
        assert forall c :: c in contexts[i].value[..CONTEXT_CHARS] ==> c in contexts[i].value;
      }
    }
    SplitJoin(parts, '\n');
  }

  /** The final user message: the pet profile, the question, the passages and the instructions. */
  function FinalContent(personalInfo: string, question: string, contextText: string): string {
    QuestionHeader(personalInfo) + question + (SOURCES_HEADER + contextText + GUIDELINES)
  }

  function QuestionHeader(personalInfo: string): string {
    "\n" + personalInfo + "\n\n[질문]\n"
  }

  const SOURCES_HEADER := "\n\n[참고자료]\n"

  const GUIDELINES := "\n\n지침:\n1. 위의 반려동물 정보를 참고하여 개인화된 조언을 제공하세요.\n2. 최근 건강 기록이 있다면 이를 바탕으로 구체적인 조언을 하세요.\n3. 질문이 도마뱀 관련이 아닐 경우, \"저는 도마뱀에 대한 질문만 답변할 수 있습니다.\"라고만 응답하세요.\n4. 응답은 완결된 문장으로 끝나도록 하세요.\n"

  lemma ContainsMiddle(a: string, b: string, c: string)
    ensures Contains(a + b + c, b)
  {
    assert (a + b + c)[|a|..] == b + c;
    assert (a + b + c)[|a|..|a| + |b|] == b;
  }

  /** The final message carries the question and the passages. */
  lemma FinalContentCarries(personalInfo: string, question: string, contextText: string)
    ensures Contains(FinalContent(personalInfo, question, contextText), question)
    ensures Contains(FinalContent(personalInfo, question, contextText), contextText)
  {
    var h := QuestionHeader(personalInfo);
    var t := SOURCES_HEADER + contextText + GUIDELINES;
    ContainsMiddle(h, question, t);
    AppendRegroup(h + question, SOURCES_HEADER, contextText, GUIDELINES);
    ContainsMiddle(h + question + SOURCES_HEADER, contextText, GUIDELINES);
  }

  lemma AppendRegroup(a: string, b: string, c: string, d: string)
    ensures a + (b + c + d) == a + b + c + d
  {
  }

  /** `generate_answer`: `llm` is the answer model (`None` for a raised exception), whose reply is
      stripped. */
  function GenerateAnswer(contexts: seq<Option<string>>, question: string, personalInfo: string,
                          history: seq<Turn>, llm: seq<Message> -> Option<string>): (r: string)
  {
    var reply := llm(MessageHistory(history, FinalContent(personalInfo, question, ContextText(contexts))));
    if reply.None? then SERVICE_ERROR_REPLY else Strip(reply.value)
  }

  /** The exceptions `handle_query` lets out: the system was not initialised, the pet or
      health-record lookup raised, or the second conversation load raised. */
  datatype QueryError = NotInitialised | LookupFailed | HistoryLoadFailed

  /** Which of the request's database reads raise: the conversation load inside
      `is_valid_query` (caught there), the pet lookup, the health-record lookup, and the
      conversation load of `generate_answer` (neither of the last three is caught). */
  datatype ReadFaults = ReadFaults(gateLoad: bool, petLookup: bool, healthLookup: bool, answerLoad: bool)

  /** The conversation the gate sees: the loaded one, or none after a failed load. */
  function GateHistory(history: seq<Turn>, faults: ReadFaults): (h: seq<Turn>)
    ensures faults.gateLoad ==> h == []
    ensures !faults.gateLoad ==> h == history
  {
    if faults.gateLoad then [] else history
  }

  /** `handle_query`: `loaded` says whether the embedding model and the index are loaded, and
      `metadata` holds the passages, which must not be empty either; `history` is the user's
      stored conversation and `faults` says which reads of the request raise; `petInfo` is the
      profile text when the pet is the user's (`None` otherwise); the search is given by its
      indices and top distance. The passages are taken with `Retrieved`, which drops missing
      hits. */
  function HandleQuery(loaded: bool, query: string, history: seq<Turn>, faults: ReadFaults,
                       classify: (seq<string>, string) -> Option<string>, petInfo: Option<string>,
                       indices: seq<int>, metadata: seq<Option<string>>, topDistance: real,
                       llm: seq<Message> -> Option<string>): (r: Result<string, QueryError>)
    ensures !(loaded && metadata != []) <==> r == Err(NotInitialised)
    ensures loaded && metadata != [] && !IsValidQuery(query, GateHistory(history, faults), classify) ==>
      r == Ok(OFF_TOPIC_REPLY)
    ensures loaded && metadata != [] && IsValidQuery(query, GateHistory(history, faults), classify) ==>
      (faults.petLookup ==> r == Err(LookupFailed))
      && (!faults.petLookup && petInfo.None? ==> r == Ok(PET_NOT_FOUND_REPLY))
      && (!faults.petLookup && petInfo.Some? && faults.healthLookup ==> r == Err(LookupFailed))
      && (!faults.petLookup && petInfo.Some? && !faults.healthLookup && faults.answerLoad ==> r == Err(HistoryLoadFailed))
    ensures (loaded && metadata != [] && IsValidQuery(query, GateHistory(history, faults), classify)
             && !faults.petLookup && !faults.healthLookup && !faults.answerLoad && petInfo.Some?) ==>
      var near := SelectContexts(Retrieved(indices, metadata), topDistance);
      var reply := llm(MessageHistory(history, FinalContent(petInfo.value, query, ContextText(near))));
      r == Ok(if reply.None? then SERVICE_ERROR_REPLY else Strip(reply.value))
  {
    if !loaded || metadata == [] then Err(NotInitialised)
    else if !IsValidQuery(query, GateHistory(history, faults), classify) then Ok(OFF_TOPIC_REPLY)
    else if faults.petLookup then Err(LookupFailed)
    else if petInfo.None? then Ok(PET_NOT_FOUND_REPLY)
    else if faults.healthLookup then Err(LookupFailed)
    else if faults.answerLoad then Err(HistoryLoadFailed)
    else
      var contexts := SelectContexts(Retrieved(indices, metadata), topDistance);
      Ok(GenerateAnswer(contexts, query, petInfo.value, history, llm))
  }

  /** With a top distance above the threshold the answer no longer depends on the search. */
  lemma FarSearchIgnored(loaded: bool, query: string, history: seq<Turn>, faults: ReadFaults,
                         classify: (seq<string>, string) -> Option<string>, petInfo: Option<string>,
                         indices: seq<int>, metadata: seq<Option<string>>, indices2: seq<int>,
                         metadata2: seq<Option<string>>, topDistance: real, llm: seq<Message> -> Option<string>)
    requires topDistance > SIMILARITY_THRESHOLD && (metadata == []) == (metadata2 == [])
    ensures HandleQuery(loaded, query, history, faults, classify, petInfo, indices, metadata, topDistance, llm)
         == HandleQuery(loaded, query, history, faults, classify, petInfo, indices2, metadata2, topDistance, llm)
  {
  }

  /** A query with an allowed keyword is accepted before the gate loads the conversation, so a
      failure of that load changes nothing; a failed second load is an error whatever the
      conversation. */
  lemma KeywordSkipsGateLoad(loaded: bool, query: string, keyword: string, history: seq<Turn>, faults: ReadFaults,
                             classify: (seq<string>, string) -> Option<string>, petInfo: Option<string>,
                             indices: seq<int>, metadata: seq<Option<string>>, topDistance: real,
                             llm: seq<Message> -> Option<string>)
    requires !(forall i :: 0 <= i < |query| ==> IsSpace(query[i]))
    requires keyword in ALLOWED_KEYWORDS && Contains(RemoveChar(query, ' '), RemoveChar(keyword, ' '))
    ensures HandleQuery(loaded, query, history, faults.(gateLoad := true), classify, petInfo, indices, metadata, topDistance, llm)
         == HandleQuery(loaded, query, history, faults.(gateLoad := false), classify, petInfo, indices, metadata, topDistance, llm)
    ensures loaded && metadata != [] && petInfo.Some? && !faults.petLookup && !faults.healthLookup && faults.answerLoad ==>
      HandleQuery(loaded, query, history, faults, classify, petInfo, indices, metadata, topDistance, llm) == Err(HistoryLoadFailed)
  {
    KeywordQueryAccepted(query, keyword, history, classify, classify);
    KeywordQueryAccepted(query, keyword, [], classify, classify);
  }
}
