/**
 * The request handlers of `app.py`: `/chat` fans one user message out to the three
 * providers, `/continue` sends a follow-up to one of them, `/reset` clears a session and
 * `/history` lists the sessions. The Flask request is replaced by plain arguments; a
 * JSON key that is absent is `None`.
 */
module Relay {
  import opened Wrappers
  import opened Messages
  import opened Store
  import Providers
  import Text

  /** The provider names, in the order every `for model in ...` loop visits them. */
  const Models: seq<string> := ["openai", "claude", "gemini"]

  /** The three provider names are distinct (they differ in their first letter). */
  lemma ModelsDistinct()
    ensures "openai" != "claude" && "openai" != "gemini" && "claude" != "gemini"
  {
    assert "openai"[0] == 'o' && "claude"[0] == 'c' && "gemini"[0] == 'g';
  }

  lemma ModelsInjective()
    ensures forall i, j :: 0 <= i < |Models| && 0 <= j < |Models| && i != j ==> Models[i] != Models[j]
  {
    ModelsDistinct();
  }

  const SystemPrompt: string := "You are a helpful assistant."

  const DefaultSession: string := "default"

  /** `data.get('session_id', 'default')`. */
  function SessionOrDefault(sessionId: Option<string>): string
  {
    match sessionId
    case Some(s) => s
    case None => DefaultSession
  }

  /** The history a conversation starts from: the stored one, or the seeded system
      message when the store has nothing. */
  function Seeded(history: seq<Message>): seq<Message>
  {
    if history == [] then [Message(System, SystemPrompt)] else history
  }

  /** The conversation sent to a provider: the seeded history and the new user message. */
  function Conversation(history: seq<Message>, userMessage: string): seq<Message>
  {
    Seeded(history) + [Message(User, userMessage)]
  }

  /** The comprehension `[{"role": role, "content": content} for role, content in messages]`:
      it fails, as Python's tuple unpacking does, as soon as one row is a triple. */
  function Unpack(rows: seq<Row>): (r: Option<seq<Message>>)
    ensures r.Some? <==> forall k :: 0 <= k < |rows| ==> rows[k].Pair?
    ensures r.Some? ==> |r.value| == |rows|
    ensures r.Some? ==> forall k :: 0 <= k < |rows| ==> r.value[k] == Message(rows[k].role, rows[k].content)
  {
    if rows == [] then Some([])
    else
      match rows[0]
      case Triple(_, _, _) => None
      case Pair(role, content) =>
        match Unpack(rows[1..])
        case None => None
        case Some(rest) => Some([Message(role, content)] + rest)
  }

  /** The `if`/`elif` chain of `continue_chat`: no branch is taken for an unknown model. */
  function Ask(llm: Providers.Service, model: string, conversation: seq<Message>): Option<string>
  {
    if model == "openai" then Some(Providers.CallOpenAI(llm, conversation))
    else if model == "claude" then Some(Providers.CallClaude(llm, conversation))
    else if model == "gemini" then Some(Providers.CallGemini(llm, conversation))
    else None
  }

  /** The dispatch answers exactly for the three providers. */
  lemma AskKnown(llm: Providers.Service, model: string, conversation: seq<Message>)
    ensures Ask(llm, model, conversation).Some? <==> model in Models
  {
    ModelsDistinct();
  }

  /** No stored record is a system message. */
  predicate NoSystem(cs: seq<Record>) {
    forall k :: 0 <= k < |cs| ==> cs[k].role != System
  }

  lemma NoSystemSnoc(cs: seq<Record>, r: Record)
    requires NoSystem(cs) && r.role != System
    ensures NoSystem(cs + [r])
  {
  }

  function CountSystem(ms: seq<Message>): nat
  {
    if ms == [] then 0 else (if ms[0].role == System then 1 else 0) + CountSystem(ms[1..])
  }

  /** The store's rows for a named model always unpack, into that model's history; with
      no model the rows are triples, which do not unpack unless there are none. */
  lemma UnpackView(cs: seq<Record>, sessionId: string, model: string)
    ensures model != "" ==> Unpack(View(cs, sessionId, model)) == Some(History(cs, sessionId, model))
    ensures model == "" && View(cs, sessionId, model) != [] ==> Unpack(View(cs, sessionId, model)) == None
  {
    ViewShape(cs, sessionId, model);
    var rows := View(cs, sessionId, model);
    var ms := Matching(cs, sessionId, model);
    if model != "" {
      var h := History(cs, sessionId, model);
      assert |h| == |rows|;
      forall k | 0 <= k < |rows| ensures Unpack(rows).value[k] == h[k] {
        assert rows[k] == RowOf(ms[k], model);
      }
      assert Unpack(rows).value == h;
    } else if rows != [] {
      assert !rows[0].Pair?;
    }
  }

  /** A history read from a store without system records holds none either. */
  lemma HistoryNoSystem(cs: seq<Record>, sessionId: string, model: string)
    requires NoSystem(cs)
    ensures forall k :: 0 <= k < |History(cs, sessionId, model)| ==> History(cs, sessionId, model)[k].role != System
  {
    var ms := Matching(cs, sessionId, model);
    forall k | 0 <= k < |ms| ensures ms[k].role != System {
      assert ms[k] in cs;
    }
  }

  lemma {:induction false} CountSystemConcat(a: seq<Message>, b: seq<Message>)
    ensures CountSystem(a + b) == CountSystem(a) + CountSystem(b)
  {
    if a != [] {
      CountSystemConcat(a[1..], b);
      assert (a + b)[1..] == a[1..] + b;
    } else {
      assert a + b == b;
    }
  }

  lemma {:induction false} CountSystemNone(ms: seq<Message>)
    requires forall k :: 0 <= k < |ms| ==> ms[k].role != System
    ensures CountSystem(ms) == 0
  {
    if ms != [] {
      CountSystemNone(ms[1..]);
    }
  }

  /** Every conversation ends with the user message, and it holds exactly one system
      message, in front, precisely when the stored history was empty. */
  lemma SeedOnlyWhenNew(history: seq<Message>, userMessage: string)
    requires forall k :: 0 <= k < |history| ==> history[k].role != System
    ensures var c := Conversation(history, userMessage);
      && c[|c| - 1] == Message(User, userMessage)
      && CountSystem(c) == (if history == [] then 1 else 0)
      && (c[0].role == System <==> history == [])
      && (history != [] ==> c[..|c| - 1] == history)
  {
    var c := Conversation(history, userMessage);
    CountSystemConcat(Seeded(history), [Message(User, userMessage)]);
    CountSystemNone(history);
    assert c[..|c| - 1] == Seeded(history);
  }

  lemma {:induction false} NonSystemConcat(a: seq<Message>, b: seq<Message>)
    ensures Providers.NonSystem(a + b) == Providers.NonSystem(a) + Providers.NonSystem(b)
  {
    if a == [] {
      assert a + b == b;
    } else {
      var ab := a + b;
      assert ab[0] == a[0] && ab[1..] == a[1..] + b;
      NonSystemConcat(a[1..], b);
    }
  }

  lemma PromptLinesConcat(a: seq<Message>, b: seq<Message>)
    ensures Providers.PromptLines(a + b) == Providers.PromptLines(a) + Providers.PromptLines(b)
  {
    NonSystemConcat(a, b);
    Providers.LinesConcat(Providers.NonSystem(a), Providers.NonSystem(b));
  }

  lemma {:induction false} NonSystemNone(ms: seq<Message>)
    requires forall k :: 0 <= k < |ms| ==> ms[k].role != System
    ensures Providers.NonSystem(ms) == ms
  {
    if ms != [] {
      NonSystemNone(ms[1..]);
      assert ms == [ms[0]] + ms[1..];
    }
  }

  /** The seeded system message never reaches Gemini: its prompt is the stored history's
      prompt, if any, followed by one line for the new user message. */
  lemma GeminiPromptOfConversation(history: seq<Message>, userMessage: string)
    requires forall k :: 0 <= k < |history| ==> history[k].role != System
    ensures Providers.Prompt(Conversation(history, userMessage)) ==
      (if history == [] then "user: " + userMessage
       else Providers.Prompt(history) + "\n" + "user: " + userMessage)
  {
    var line := "user: " + userMessage;
    UserLine(userMessage);
    PromptLinesConcat(Seeded(history), [Message(User, userMessage)]);
    if history == [] {
      SeedSilent();
      assert [] + [line] == [line];
    } else {
      NonSystemNone(history);
      Text.JoinSnoc(Providers.PromptLines(history), line, '\n');
    }
  }

  /** The new user message makes one prompt line. */
  lemma UserLine(userMessage: string)
    ensures Providers.PromptLines([Message(User, userMessage)]) == ["user: " + userMessage]
  {
    var u := Message(User, userMessage);
    assert [u][1..] == [];
    assert Providers.NonSystem([u]) == [u];
    assert Providers.PromptLine(u) == "user: " + userMessage;
  }

  /** The seeded system message makes no prompt line. */
  lemma SeedSilent()
    ensures Providers.PromptLines([Message(System, SystemPrompt)]) == []
  {
    var seed := Message(System, SystemPrompt);
    assert [seed][1..] == [];
  }

  /** The records one loop over the providers saves: one per provider, in `Models`
      order, with that provider's content and consecutive timestamps from `t`. */
  function Turns(sessionId: string, role: Role, contents: seq<string>, t: nat): seq<Record>
    requires |contents| == |Models|
  {
    seq(|Models|, j requires 0 <= j < |Models| => Record(sessionId, Models[j], role, contents[j], t + j))
  }

  /** The replies of `/chat` in `Models` order. */
  function InOrder(replies: map<string, string>): (r: seq<string>)
    requires forall m :: m in Models ==> m in replies
    ensures |r| == |Models| && forall j :: 0 <= j < |Models| ==> r[j] == replies[Models[j]]
  {
    [replies["openai"], replies["claude"], replies["gemini"]]
  }

  /** The three user records the second loop of `/chat` saves. */
  function UserTurns(sessionId: string, userMessage: string, t: nat): seq<Record>
  {
    Turns(sessionId, User, [userMessage, userMessage, userMessage], t)
  }

  /** The three assistant records the last loop of `/chat` saves. */
  function ReplyTurns(sessionId: string, replies: map<string, string>, t: nat): seq<Record>
    requires forall m :: m in Models ==> m in replies
  {
    Turns(sessionId, Assistant, InOrder(replies), t)
  }

  function Only(r: Record, sessionId: string, model: string): seq<Record> {
    if Selects(r, sessionId, model) then [r] else []
  }

  lemma MatchingSnoc(cs: seq<Record>, r: Record, sessionId: string, model: string)
    ensures Matching(cs + [r], sessionId, model) == Matching(cs, sessionId, model) + Only(r, sessionId, model)
  {
    assert (cs + [r])[..|cs|] == cs;
  }

  lemma MatchingThree(a: Record, b: Record, c: Record, sessionId: string, model: string)
    ensures Matching([a, b, c], sessionId, model) ==
      Only(a, sessionId, model) + Only(b, sessionId, model) + Only(c, sessionId, model)
  {
    MatchingSnoc([], a, sessionId, model);
    assert [] + [a] == [a];
    MatchingSnoc([a], b, sessionId, model);
    assert [a] + [b] == [a, b];
    MatchingSnoc([a, b], c, sessionId, model);
    assert [a, b] + [c] == [a, b, c];
  }

  /** A history over appended records is the old history followed by the appended records
      the same query selects. */
  lemma HistoryConcat(cs: seq<Record>, rs: seq<Record>, sessionId: string, model: string)
    ensures History(cs + rs, sessionId, model) == History(cs, sessionId, model) + AsMessages(Matching(rs, sessionId, model))
  {
    MatchingConcat(cs, rs, sessionId, model);
    AsMessagesConcat(Matching(cs, sessionId, model), Matching(rs, sessionId, model));
  }

  lemma ChatMatching(sessionId: string, userMessage: string, replies: map<string, string>, t: nat, s: string, model: string)
    requires forall m :: m in Models ==> m in replies
    ensures var us := UserTurns(sessionId, userMessage, t);
      var rs := ReplyTurns(sessionId, replies, t + 3);
      Matching(us + rs, s, model) ==
        Only(us[0], s, model) + Only(us[1], s, model) + Only(us[2], s, model) +
        (Only(rs[0], s, model) + Only(rs[1], s, model) + Only(rs[2], s, model))
  {
    var us := UserTurns(sessionId, userMessage, t);
    var rs := ReplyTurns(sessionId, replies, t + 3);
    MatchingConcat(us, rs, s, model);
    assert us == [us[0], us[1], us[2]] && rs == [rs[0], rs[1], rs[2]];
    MatchingThree(us[0], us[1], us[2], s, model);
    MatchingThree(rs[0], rs[1], rs[2], s, model);
  }

  /** The records of one loop over the providers: the query for a provider selects
      exactly that provider's record. */
  lemma MatchingTurns(sessionId: string, role: Role, contents: seq<string>, t: nat, i: nat)
    requires |contents| == |Models| && i < |Models|
    ensures Matching(Turns(sessionId, role, contents, t), sessionId, Models[i]) == [Turns(sessionId, role, contents, t)[i]]
  {
    var turns := Turns(sessionId, role, contents, t);
    var model := Models[i];
    ModelsDistinct();
    assert turns == [turns[0], turns[1], turns[2]];
    MatchingThree(turns[0], turns[1], turns[2], sessionId, model);
    if i == 0 {
      assert Only(turns[1], sessionId, model) == [] && Only(turns[2], sessionId, model) == [];
    } else if i == 1 {
      assert Only(turns[0], sessionId, model) == [] && Only(turns[2], sessionId, model) == [];
    } else {
      assert Only(turns[0], sessionId, model) == [] && Only(turns[1], sessionId, model) == [];
    }
  }

  lemma ChatMatchingOwn(sessionId: string, userMessage: string, replies: map<string, string>, t: nat, i: nat)
    requires forall m :: m in Models ==> m in replies
    requires i < |Models|
    ensures var us := UserTurns(sessionId, userMessage, t);
      var rs := ReplyTurns(sessionId, replies, t + 3);
      Matching(us + rs, sessionId, Models[i]) == [us[i], rs[i]]
  {
    var us := UserTurns(sessionId, userMessage, t);
    var rs := ReplyTurns(sessionId, replies, t + 3);
    MatchingConcat(us, rs, sessionId, Models[i]);
    MatchingTurns(sessionId, User, [userMessage, userMessage, userMessage], t, i);
    MatchingTurns(sessionId, Assistant, InOrder(replies), t + 3, i);
  }

  /** After `/chat` each of the session's three provider histories has grown by exactly the
      user message and then that provider's reply. */
  lemma ChatHistoryOwn(cs: seq<Record>, sessionId: string, userMessage: string, replies: map<string, string>, t: nat, model: string)
    requires forall m :: m in Models ==> m in replies
    requires model in Models
    ensures History(cs + UserTurns(sessionId, userMessage, t) + ReplyTurns(sessionId, replies, t + 3), sessionId, model) ==
      History(cs, sessionId, model) + [Message(User, userMessage), Message(Assistant, replies[model])]
  {
    var us := UserTurns(sessionId, userMessage, t);
    var rs := ReplyTurns(sessionId, replies, t + 3);
    assert cs + us + rs == cs + (us + rs);
    HistoryConcat(cs, us + rs, sessionId, model);
    var i := if model == "openai" then 0 else if model == "claude" then 1 else 2;
    assert Models[i] == model;
    ChatMessagesOwn(sessionId, userMessage, replies, t, i);
  }

  /** The messages a provider's query reads back from one `/chat`. */
  lemma ChatMessagesOwn(sessionId: string, userMessage: string, replies: map<string, string>, t: nat, i: nat)
    requires forall m :: m in Models ==> m in replies
    requires i < |Models|
    ensures var us := UserTurns(sessionId, userMessage, t);
      var rs := ReplyTurns(sessionId, replies, t + 3);
      AsMessages(Matching(us + rs, sessionId, Models[i])) ==
        [Message(User, userMessage), Message(Assistant, replies[Models[i]])]
  {
    ChatMatchingOwn(sessionId, userMessage, replies, t, i);
  }

  /** `/chat` changes no history other than the session's three provider histories and its
      unfiltered one. */
  lemma ChatHistoryElsewhere(cs: seq<Record>, sessionId: string, userMessage: string, replies: map<string, string>, t: nat, s: string, model: string)
    requires forall m :: m in Models ==> m in replies
    requires !(s == sessionId && (model == "" || model in Models))
    ensures History(cs + UserTurns(sessionId, userMessage, t) + ReplyTurns(sessionId, replies, t + 3), s, model) == History(cs, s, model)
  {
    var us := UserTurns(sessionId, userMessage, t);
    var rs := ReplyTurns(sessionId, replies, t + 3);
    assert cs + us + rs == cs + (us + rs);
    HistoryConcat(cs, us + rs, s, model);
    ChatMatching(sessionId, userMessage, replies, t, s, model);
    assert Matching(us + rs, s, model) == [];
    assert History(cs, s, model) + [] == History(cs, s, model);
  }

  /** The session table once a handler has saved records for `sessionId` at the times
      `first` through `last`: a new session was created at `first`, an existing one keeps
      its creation time; either way its last activity is `last`, and no other session changes. */
  function Active(sessions: map<string, SessionRecord>, sessionId: string, first: nat, last: nat): map<string, SessionRecord>
  {
    if sessionId in sessions then sessions[sessionId := sessions[sessionId].(lastActivity := last)]
    else sessions[sessionId := SessionRecord(sessionId, first, last)]
  }

  /** The first save of a handler creates or refreshes the session record. */
  lemma ActiveFirst(sessions: map<string, SessionRecord>, sessionId: string, now: nat)
    ensures Touch(sessions, sessionId, now) == Active(sessions, sessionId, now, now)
  {
  }

  /** Every later save only moves the session's last activity forward. */
  lemma ActiveNext(sessions: map<string, SessionRecord>, sessionId: string, first: nat, last: nat, now: nat)
    ensures Touch(Active(sessions, sessionId, first, last), sessionId, now) == Active(sessions, sessionId, first, now)
  {
  }

  /** A second run of saves for the same session keeps the creation time of the first. */
  lemma ActiveAgain(sessions: map<string, SessionRecord>, sessionId: string, first: nat, last: nat, first2: nat, last2: nat)
    ensures Active(Active(sessions, sessionId, first, last), sessionId, first2, last2) == Active(sessions, sessionId, first, last2)
  {
  }

  /** The session table after `n` saves for `sessionId`, stamped `first` onwards. */
  function Touched(sessions: map<string, SessionRecord>, sessionId: string, first: nat, n: nat): map<string, SessionRecord>
  {
    if n == 0 then sessions else Touch(Touched(sessions, sessionId, first, n - 1), sessionId, first + n - 1)
  }

  /** A run of saves for one session leaves it active from the first save to the last. */
  lemma {:induction false} TouchedActive(sessions: map<string, SessionRecord>, sessionId: string, first: nat, n: nat)
    requires n > 0
    ensures Touched(sessions, sessionId, first, n) == Active(sessions, sessionId, first, first + n - 1)
  {
    if n == 1 {
      ActiveFirst(sessions, sessionId, first);
    } else {
      TouchedActive(sessions, sessionId, first, n - 1);
      ActiveNext(sessions, sessionId, first, first + n - 2, first + n - 1);
    }
  }

  /** One step of a save loop over the providers, on values: the next record extends the
      saved prefix, is no system message, and touches the session table once more. */
  lemma TurnsStep(cs0: seq<Record>, sessions0: map<string, SessionRecord>, sessionId: string, role: Role,
                  contents: seq<string>, t0: nat, i: nat, now: nat)
    requires |contents| == |Models| && i < |Models| && role != System && NoSystem(cs0 + Turns(sessionId, role, contents, t0)[..i])
    requires now == t0 + i
    ensures var turns := Turns(sessionId, role, contents, t0);
      var r := Record(sessionId, Models[i], role, contents[i], now);
      && cs0 + turns[..i + 1] == cs0 + turns[..i] + [r]
      && NoSystem(cs0 + turns[..i + 1])
      && Touched(sessions0, sessionId, t0, i + 1) == Touch(Touched(sessions0, sessionId, t0, i), sessionId, now)
  {
    var turns := Turns(sessionId, role, contents, t0);
    var r := Record(sessionId, Models[i], role, contents[i], now);
    assert turns[..i + 1] == turns[..i] + [r];
    NoSystemSnoc(cs0 + turns[..i], r);
  }

  /** What `/continue` answers: the reply and the model it came from. */
  datatype Reply = Reply(response: string, model: string)

  /** The two ways `/continue` fails with an internal error: the stored rows do not unpack
      into role/content pairs, or no branch of the model dispatch ran and `response` was
      never bound. */
  datatype Fault = MalformedHistory | UnknownModel

  /** The second loop of `/chat`, on the conversations: the user message is appended to
      each provider's conversation. */
  method AddUserMessage(conversations: map<string, seq<Message>>, userMessage: string)
    returns (updated: map<string, seq<Message>>)
    requires forall m :: m in Models ==> m in conversations
    ensures forall m :: m in updated <==> m in conversations
    ensures forall m :: m in Models ==> updated[m] == conversations[m] + [Message(User, userMessage)]
    ensures forall m :: m in conversations && m !in Models ==> updated[m] == conversations[m]
  {
    ModelsInjective();
    updated := conversations;
    for i := 0 to |Models|
      invariant forall m :: m in updated <==> m in conversations
      invariant forall j :: 0 <= j < i ==> updated[Models[j]] == conversations[Models[j]] + [Message(User, userMessage)]
      invariant forall j :: i <= j < |Models| ==> updated[Models[j]] == conversations[Models[j]]
      invariant forall m :: m in conversations && m !in Models ==> updated[m] == conversations[m]
    {
      var model := Models[i];
      updated := updated[model := updated[model] + [Message(User, userMessage)]];
    }
  }

  /** The three provider calls of `/chat`, keyed by provider name. */
  function Fanout(llm: Providers.Service, conversations: map<string, seq<Message>>): (responses: map<string, string>)
    requires forall m :: m in Models ==> m in conversations
    ensures forall m :: m in responses <==> m in Models
    ensures forall m :: m in Models ==> Ask(llm, m, conversations[m]) == Some(responses[m])
  {
    ModelsDistinct();
    map[
      "openai" := Providers.CallOpenAI(llm, conversations["openai"]),
      "claude" := Providers.CallClaude(llm, conversations["claude"]),
      "gemini" := Providers.CallGemini(llm, conversations["gemini"])]
  }

  /** The store after `/chat`: each of the session's three provider histories has grown
      by the user message and that provider's reply, and every other history is as it was. */
  lemma ChatHistory(cs: seq<Record>, sessionId: string, userMessage: string, replies: map<string, string>, t: nat)
    requires forall m :: m in Models ==> m in replies
    ensures forall m :: m in Models ==>
      History(cs + UserTurns(sessionId, userMessage, t) + ReplyTurns(sessionId, replies, t + 3), sessionId, m) ==
      History(cs, sessionId, m) + [Message(User, userMessage), Message(Assistant, replies[m])]
    ensures forall s, m :: !(s == sessionId && (m == "" || m in Models)) ==>
      History(cs + UserTurns(sessionId, userMessage, t) + ReplyTurns(sessionId, replies, t + 3), s, m) == History(cs, s, m)
  {
    forall m | m in Models
      ensures History(cs + UserTurns(sessionId, userMessage, t) + ReplyTurns(sessionId, replies, t + 3), sessionId, m) ==
        History(cs, sessionId, m) + [Message(User, userMessage), Message(Assistant, replies[m])]
    {
      ChatHistoryOwn(cs, sessionId, userMessage, replies, t, m);
    }
    forall s, m | !(s == sessionId && (m == "" || m in Models))
      ensures History(cs + UserTurns(sessionId, userMessage, t) + ReplyTurns(sessionId, replies, t + 3), s, m) == History(cs, s, m)
    {
      ChatHistoryElsewhere(cs, sessionId, userMessage, replies, t, s, m);
    }
  }

  /** The records and session table after `/chat`, from those after its two save loops. */
  lemma ChatState(cs0: seq<Record>, cs1: seq<Record>, cs2: seq<Record>, sessions0: map<string, SessionRecord>,
                  sessions1: map<string, SessionRecord>, sessions2: map<string, SessionRecord>,
                  sessionId: string, userMessage: string, replies: map<string, string>, t0: nat, t1: nat)
    requires forall m :: m in Models ==> m in replies
    requires t1 == t0 + 3
    requires cs1 == cs0 + UserTurns(sessionId, userMessage, t0)
    requires cs2 == cs1 + Turns(sessionId, Assistant, InOrder(replies), t1)
    requires sessions1 == Active(sessions0, sessionId, t0, t0 + 2)
    requires sessions2 == Active(sessions1, sessionId, t1, t1 + |Models| - 1)
    ensures cs2 == cs0 + UserTurns(sessionId, userMessage, t0) + ReplyTurns(sessionId, replies, t0 + 3)
    ensures sessions2 == Active(sessions0, sessionId, t0, t0 + 5)
  {
    ActiveAgain(sessions0, sessionId, t0, t0 + 2, t0 + 3, t0 + 5);
  }

  /** The records `/continue` saves from time `t`: the user turn, then the reply when the
      dispatch produced one. */
  function Sent(sessionId: string, model: string, userMessage: string, answer: Option<string>, t: nat): seq<Record>
  {
    [Record(sessionId, model, User, userMessage, t)] +
    (if answer.Some? then [Record(sessionId, model, Assistant, answer.value, t + 1)] else [])
  }

  /** The store after `/continue`: with a reply, the selected provider's history has grown by
      the user message and the reply; either way no other history has changed. */
  lemma ContinueHistory(cs: seq<Record>, sessionId: string, model: string, userMessage: string, answer: Option<string>, t: nat)
    ensures answer.Some? && model != "" ==>
      History(cs + Sent(sessionId, model, userMessage, answer, t), sessionId, model) ==
      History(cs, sessionId, model) + [Message(User, userMessage), Message(Assistant, answer.value)]
    ensures forall s, m :: !(s == sessionId && (m == "" || m == model)) ==>
      History(cs + Sent(sessionId, model, userMessage, answer, t), s, m) == History(cs, s, m)
  {
    var user := Record(sessionId, model, User, userMessage, t);
    var sent := Sent(sessionId, model, userMessage, answer, t);
    if answer.Some? {
      var reply := Record(sessionId, model, Assistant, answer.value, t + 1);
      assert cs + sent == cs + [user] + [reply];
      if model != "" {
        SaveThenGet(cs, user);
        SaveThenGet(cs + [user], reply);
      }
      forall s, m | !(s == sessionId && (m == "" || m == model))
        ensures History(cs + sent, s, m) == History(cs, s, m)
      {
        SaveElsewhere(cs, user, s, m);
        SaveElsewhere(cs + [user], reply, s, m);
      }
    } else {
      assert cs + sent == cs + [user];
      forall s, m | !(s == sessionId && (m == "" || m == model))
        ensures History(cs + sent, s, m) == History(cs, s, m)
      {
        SaveElsewhere(cs, user, s, m);
      }
    }
  }

  /** The records and session table after the saves of `/continue`, on values. */
  lemma SentState(cs0: seq<Record>, cs2: seq<Record>, sessions0: map<string, SessionRecord>, sessions2: map<string, SessionRecord>,
                  sessionId: string, model: string, userMessage: string, answer: Option<string>, t: nat, t1: nat)
    requires answer.None? ==>
      cs2 == cs0 + [Record(sessionId, model, User, userMessage, t)] && sessions2 == Touch(sessions0, sessionId, t)
    requires answer.Some? ==>
      && t1 == t + 1
      && cs2 == cs0 + [Record(sessionId, model, User, userMessage, t)] + [Record(sessionId, model, Assistant, answer.value, t1)]
      && sessions2 == Touch(Touch(sessions0, sessionId, t), sessionId, t1)
    ensures cs2 == cs0 + Sent(sessionId, model, userMessage, answer, t)
    ensures sessions2 == Touched(sessions0, sessionId, t, |Sent(sessionId, model, userMessage, answer, t)|)
  {
    assert Touched(sessions0, sessionId, t, 1) == Touch(sessions0, sessionId, t);
    if answer.Some? {
      assert Touched(sessions0, sessionId, t, 2) == Touch(Touched(sessions0, sessionId, t, 1), sessionId, t1);
    }
  }

  class App {
    const db: Database
    const llm: Providers.Service

    /** The store is consistent and, since the handlers only ever save user and assistant
        turns, holds no system message. */
    ghost predicate Valid()
      reads this, db
    {
      db.Valid() && NoSystem(db.conversations)
    }

    constructor (db: Database, llm: Providers.Service)
      requires db.Valid() && NoSystem(db.conversations)
      ensures this.db == db && this.llm == llm && Valid()
    {
      this.db := db;
      this.llm := llm;
    }

    /** The conversation a handler builds from the stored rows, as the handler's
        `if messages:` branch does it; `None` when the rows do not unpack. */
    method Load(sessionId: string, model: string) returns (conversation: Option<seq<Message>>)
      ensures model != "" ==> conversation == Some(Seeded(History(db.conversations, sessionId, model)))
      ensures model == "" ==>
        conversation == if History(db.conversations, sessionId, model) == [] then Some(Seeded([])) else None
    {
      var rows := db.GetConversation(sessionId, model);
      UnpackView(db.conversations, sessionId, model);
      if rows != [] {
        conversation := Unpack(rows);
      } else {
        conversation := Some([Message(System, SystemPrompt)]);
      }
    }

    /** The first loop of `/chat`: one loaded conversation per provider. */
    method LoadAll(sessionId: string) returns (conversations: map<string, seq<Message>>)
      ensures forall m :: m in conversations <==> m in Models
      ensures forall m :: m in Models ==> conversations[m] == Seeded(History(db.conversations, sessionId, m))
    {
      conversations := map[];
      for i := 0 to |Models|
        invariant forall m :: m in conversations <==> m in Models[..i]
        invariant forall m :: m in conversations ==> conversations[m] == Seeded(History(db.conversations, sessionId, m))
      {
        var loaded := Load(sessionId, Models[i]);
        conversations := conversations[Models[i] := loaded.value];
        assert Models[..i + 1] == Models[..i] + [Models[i]];
      }
      assert Models[..3] == Models;
    }

    /** One loop of `/chat` over the providers: `save_message` for each provider in
        turn, with that provider's content. */
    method SaveTurns(sessionId: string, role: Role, contents: seq<string>)
      requires Valid()
      requires role != System && |contents| == |Models|
      modifies db
      ensures Valid()
      ensures db.conversations == old(db.conversations) + Turns(sessionId, role, contents, old(db.clock))
      ensures db.sessions == Active(old(db.sessions), sessionId, old(db.clock), old(db.clock) + |Models| - 1)
      ensures db.clock == old(db.clock) + |Models|
    {
      ghost var cs0 := db.conversations;
      ghost var sessions0 := db.sessions;
      ghost var t0 := db.clock;
      ghost var turns := Turns(sessionId, role, contents, t0);
      for i := 0 to |Models|
        invariant Valid()
        invariant db.conversations == cs0 + turns[..i]
        invariant db.sessions == Touched(sessions0, sessionId, t0, i)
        invariant db.clock == t0 + i
      {
        TurnsStep(cs0, sessions0, sessionId, role, contents, t0, i, db.clock);
        db.SaveMessage(sessionId, Models[i], role, contents[i]);
      }
      TouchedActive(sessions0, sessionId, t0, |Models|);
      assert turns[..|Models|] == turns;
    }

    /** The first two loops of `/chat`: the conversations are loaded and extended with the
        user message, and the three user turns are saved. */
    method Prepare(sessionId: string, userMessage: string) returns (conversations: map<string, seq<Message>>)
      requires Valid()
      modifies db
      ensures Valid()
      ensures forall m :: m in conversations <==> m in Models
      ensures forall m :: m in Models ==>
        conversations[m] == Conversation(old(History(db.conversations, sessionId, m)), userMessage)
      ensures db.conversations == old(db.conversations) + UserTurns(sessionId, userMessage, old(db.clock))
      ensures db.sessions == Active(old(db.sessions), sessionId, old(db.clock), old(db.clock) + 2)
      ensures db.clock == old(db.clock) + 3
    {
      conversations := LoadAll(sessionId);
      conversations := AddUserMessage(conversations, userMessage);
      SaveTurns(sessionId, User, [userMessage, userMessage, userMessage]);
    }

    /** `/chat`: every provider gets its own stored history (or the seed) plus the new
        message; the three user turns are saved, then the three replies. */
    method Chat(userMessage: string, sessionId: Option<string>) returns (responses: map<string, string>)
      requires Valid()
      modifies db
      ensures Valid()
      ensures forall m :: m in responses <==> m in Models
      ensures forall m :: m in Models ==>
        Ask(llm, m, Conversation(old(History(db.conversations, SessionOrDefault(sessionId), m)), userMessage)) == Some(responses[m])
      ensures var s := SessionOrDefault(sessionId);
        && db.conversations == old(db.conversations) + UserTurns(s, userMessage, old(db.clock)) + ReplyTurns(s, responses, old(db.clock) + 3)
        && db.sessions == Active(old(db.sessions), s, old(db.clock), old(db.clock) + 5)
        && db.clock == old(db.clock) + 6
      ensures forall m :: m in Models ==>
        History(db.conversations, SessionOrDefault(sessionId), m) ==
        old(History(db.conversations, SessionOrDefault(sessionId), m)) + [Message(User, userMessage), Message(Assistant, responses[m])]
      ensures forall s, m :: !(s == SessionOrDefault(sessionId) && (m == "" || m in Models)) ==>
        History(db.conversations, s, m) == old(History(db.conversations, s, m))
    {
      var s := SessionOrDefault(sessionId);
      ghost var cs0 := db.conversations;
      ghost var sessions0 := db.sessions;
      var t0 := db.clock;

      ModelsDistinct();
      var conversations := Prepare(s, userMessage);
      responses := Fanout(llm, conversations);
      ghost var cs1, sessions1, t1 := db.conversations, db.sessions, db.clock;
      SaveTurns(s, Assistant, InOrder(responses));
      ChatState(cs0, cs1, db.conversations, sessions0, sessions1, db.sessions, s, userMessage, responses, t0, t1);
      ChatHistory(cs0, s, userMessage, responses, t0);
    }

    /** The rest of `/continue` once the conversation is built: the user turn is saved,
        the selected provider is asked, and its reply is saved; for an unknown model no
        branch of the dispatch is taken and the handler fails before the second save. */
    method Exchange(sessionId: string, model: string, userMessage: string, conversation: seq<Message>)
      returns (result: Result<Reply, Fault>)
      requires Valid()
      modifies db
      ensures Valid()
      ensures var answer := Ask(llm, model, conversation);
        var sent := Sent(sessionId, model, userMessage, answer, old(db.clock));
        && result == (if answer.None? then Failure(UnknownModel) else Success(Reply(answer.value, model)))
        && db.conversations == old(db.conversations) + sent
        && db.sessions == Touched(old(db.sessions), sessionId, old(db.clock), |sent|)
        && db.clock == old(db.clock) + |sent|
    {
      ghost var cs0, sessions0 := db.conversations, db.sessions;
      NoSystemSnoc(cs0, Record(sessionId, model, User, userMessage, db.clock));
      db.SaveMessage(sessionId, model, User, userMessage);
      ghost var t1 := db.clock;
      var answer := Ask(llm, model, conversation);
      if answer.Some? {
        NoSystemSnoc(db.conversations, Record(sessionId, model, Assistant, answer.value, t1));
        db.SaveMessage(sessionId, model, Assistant, answer.value);
        result := Success(Reply(answer.value, model));
      } else {
        result := Failure(UnknownModel);
      }
      SentState(cs0, db.conversations, sessions0, db.sessions, sessionId, model, userMessage, answer, old(db.clock), t1);
    }

    /** `/continue`: only the selected provider is asked, with its own stored history (or
        the seed) plus the new message; the user turn is saved before the dispatch, the
        reply after it. */
    method ContinueChat(userMessage: string, model: string, sessionId: Option<string>) returns (result: Result<Reply, Fault>)
      requires Valid()
      modifies db
      ensures Valid()
      ensures var s := SessionOrDefault(sessionId);
        var history := old(History(db.conversations, s, model));
        var answer := Ask(llm, model, Conversation(history, userMessage));
        var sent := Sent(s, model, userMessage, answer, old(db.clock));
        if model == "" && history != [] then
          && result == Failure(MalformedHistory)
          && db.conversations == old(db.conversations) && db.sessions == old(db.sessions) && db.clock == old(db.clock)
        else
          && result == (if answer.None? then Failure(UnknownModel) else Success(Reply(answer.value, model)))
          && db.conversations == old(db.conversations) + sent
          && db.sessions == Touched(old(db.sessions), s, old(db.clock), |sent|)
          && db.clock == old(db.clock) + |sent|
      ensures result.Success? <==> model in Models
      ensures result.Success? ==>
        History(db.conversations, SessionOrDefault(sessionId), model) ==
        old(History(db.conversations, SessionOrDefault(sessionId), model)) +
          [Message(User, userMessage), Message(Assistant, result.value.response)]
      ensures forall s, m :: !(s == SessionOrDefault(sessionId) && (m == "" || m == model)) ==>
        History(db.conversations, s, m) == old(History(db.conversations, s, m))
    {
      var s := SessionOrDefault(sessionId);
      ghost var cs0 := db.conversations;
      var loaded := Load(s, model);
      if loaded.None? {
        return Failure(MalformedHistory);
      }
      var conversation := loaded.value + [Message(User, userMessage)];
      assert conversation == Conversation(History(cs0, s, model), userMessage);
      AskKnown(llm, model, conversation);
      result := Exchange(s, model, userMessage, conversation);
      ContinueHistory(cs0, s, model, userMessage, Ask(llm, model, conversation), old(db.clock));
    }

    /** `/reset`: every record of the session and its session record are gone; every
        other session's histories are untouched. */
    method Reset(sessionId: Option<string>) returns (status: string)
      requires Valid()
      modifies db
      ensures Valid()
      ensures status == "success"
      ensures db.clock == old(db.clock)
      ensures db.conversations == Others(old(db.conversations), SessionOrDefault(sessionId))
      ensures db.sessions == old(db.sessions) - {SessionOrDefault(sessionId)}
      ensures forall m :: History(db.conversations, SessionOrDefault(sessionId), m) == []
      ensures forall s, m :: s != SessionOrDefault(sessionId) ==>
        History(db.conversations, s, m) == old(History(db.conversations, s, m))
    {
      var s := SessionOrDefault(sessionId);
      ghost var cs0 := db.conversations;
      db.ClearSession(s);
      forall k | 0 <= k < |db.conversations| ensures db.conversations[k].role != System {
        assert db.conversations[k] in cs0;
      }
      forall m ensures History(db.conversations, s, m) == [] {
        ClearRemovesAll(cs0, s, m);
      }
      forall s', m | s' != s ensures History(db.conversations, s', m) == History(cs0, s', m) {
        ClearKeepsOthers(cs0, s, s', m);
      }
      status := "success";
    }

    /** `/history`: one entry per stored session, most recently active first. */
    method GetHistory() returns (sessions: seq<SessionRecord>)
      requires Valid()
      ensures forall k :: 0 <= k < |sessions| ==>
        sessions[k].sessionId in db.sessions && sessions[k] == db.sessions[sessions[k].sessionId]
      ensures forall id :: id in db.sessions <==> exists k :: 0 <= k < |sessions| && sessions[k].sessionId == id
      ensures forall j, k :: 0 <= j < k < |sessions| ==> sessions[j].lastActivity > sessions[k].lastActivity
    {
      sessions := db.GetAllSessions();
    }
  }
}
