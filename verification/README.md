# multi-llm-chat, modelled in Dafny

multi-llm-chat is a small Flask application. It sends one user message to three chat
providers (OpenAI, Claude through OpenRouter, and Gemini) and keeps a separate
conversation history for each provider and session in Firestore. A companion script
turns a Markdown document into a PDF. This project models the application's core:

- **`relay.dfy`, module `Relay`.** The request handlers of `app.py` are the methods of
  class `App`:
  - `/chat` loads the three histories, seeds an empty one with the system prompt,
    saves the user turn three times, asks the three providers and saves the three
    replies.
  - `/continue` does the same for one selected provider.
  - `/reset` clears a session.
  - `/history` lists the sessions.

  Each provider history is stated as a function of the stored records, `History`.
  Lemmas prove how each history grows and which histories stay untouched.
- **`store.dfy`, module `Store`.** `database.py` becomes class `Database`:
  - an append-only sequence of message records;
  - a map of session records;
  - a natural-number clock that stands in for the server timestamp;
  - `recency`, the session ids in order of last activity. This is the index that
    answers the `order_by('last_activity', DESCENDING)` query.

  `Valid()` states that timestamps increase, that every record belongs to a present
  session, and that the index is exact and strictly ordered. Every method preserves
  `Valid()`.
- **`providers.dfy`, module `Providers`.** The adapters of `llm_service.py`:
  - Each vendor SDK is a `Client` value: a function from the request to either the
    reply text or the exception message. The clients are fixed when the service is
    built.
  - Each adapter turns an exception into `"Error: " + message`.
  - The Gemini prompt is the non-system messages rendered as `role: content` and
    joined by newlines. When no message content holds a newline, it reads back to
    exactly those messages.
- **`markdown.dfy`, module `Markdown`.** The parsing loop of `create_pdf_simple.py`
  (lines 84-153):
  - `Parse` is the `while` loop with its manually advanced index, and `GatherCode` is
    its inner fence loop.
  - Both are proved against `Render`, a recursive specification built from `Step`.
    `Step` is one pass of the loop.
  - The PDF story is a sequence of abstract `Block`s. Spacer heights are in tenths of
    an inch.
- **`markup.dfy`, module `Markup`.** The per-line text rewrites:
  - the bullet line: marker dropped, marks substituted, bullet prefixed;
  - the numbered line: `^\d+\.\s*` removed;
  - the paragraph line: `**bold**` and `` `code` `` turned into tags, XML specials
    escaped, and the four allowed tags restored.

  `Safe` is a token grammar. It says that every `&` starts an entity and that every
  `<` and `>` belongs to one of the four tags. Every paragraph text is proved `Safe`.
- **Support modules:**
  - `text.dfy` (`Text`): Python's `strip`, `split`, `join` and `replace`, with their
    laws;
  - `messages.dfy` (`Messages`): roles and messages;
  - `wrappers.dfy` (`Wrappers`): `Option` and `Result`.

## Model

| member | source | states |
|---|---|---|
| Relay.App.Chat | app.py:23-59 | The reply map has exactly the keys openai, claude and gemini, each bound to that provider's own call on its stored history (or the seed) plus the user message. The store gains the three user turns and then the three replies, and the session goes from its first save to its sixth. Each provider history of the session grows by exactly the user message and its own reply. Every other history is unchanged, including other sessions' histories; only the session's unfiltered history also grows. |
| Relay.App.Prepare | app.py:29-41 | The loaded and extended conversations. The three user turns are saved, in provider order, before any provider is called. |
| Relay.App.LoadAll | app.py:30-36 | One conversation per provider: the stored history, or the single system message when the store has none. |
| Relay.App.Load | app.py:69-73 | With a model, the stored history or the seed. With an empty model, the seed only when nothing is stored; otherwise the triples fail to unpack. |
| Relay.AddUserMessage | app.py:39-40 | The user message is appended to each of the three conversations. The keys are unchanged, and any other entry stays as it was. |
| Relay.App.SaveTurns | app.py:39-41 | One record per provider in `Models` order, with consecutive timestamps. The session is created or kept at the first save and is last active at the third. `Valid()` is kept. |
| Relay.Fanout | app.py:44-53 | Exactly the three provider keys, each bound to the result of the dispatch for that provider on its own conversation. |
| Relay.InOrder | app.py:56-57 | The replies in provider order, each the reply stored under that provider's name. |
| Relay.App.ContinueChat | app.py:61-90 | Only the selected provider is asked, with its history (or the seed) plus the user message. An empty model with stored rows fails before any save. An unknown model fails after the user turn is saved. It succeeds exactly for the three providers; the provider's history then grows by the user message and the reply, and no other history changes. |
| Relay.App.Exchange | app.py:76-90 | The user turn is saved before the dispatch and the reply after it. With no branch taken, the result is the unknown-model failure and only the user turn is stored. |
| Relay.AskKnown | app.py:80-85 | The `if`/`elif` dispatch yields a reply exactly when the model is one of the three providers. |
| Relay.App.Reset | app.py:92-97 | Every record and the session record of the (defaulted) session are gone, so no query about it finds anything. Every other session's histories are unchanged, and the clock does not move. |
| Relay.App.GetHistory | app.py:99-103 | One entry per stored session, equal to its session record, in strictly decreasing last activity. |
| Relay.SessionOrDefault | app.py:27 | Defines the session id of a request: the one given, or `default` when the key is absent. The same default is applied at lines 66 and 95. |
| Relay.Seeded | app.py:33-36 | Defines the history a conversation starts from: the stored messages, or the single system message when nothing is stored. Its properties are proved in `Relay.SeedOnlyWhenNew`. |
| Relay.Conversation | app.py:31-40 | Defines the conversation sent to a provider: the seeded history followed by the user message. `Relay.SeedOnlyWhenNew` and `Relay.GeminiPromptOfConversation` state what it holds. |
| Relay.Ask | app.py:80-85 | Defines the `if`/`elif` dispatch of `/continue`: the matching provider's call, or no reply when no branch is taken. `Relay.AskKnown` proves when it replies. |
| Relay.Unpack | app.py:34 | Unpacking succeeds exactly when every row is a pair, and then gives one message per row with the row's role and content. |
| Relay.UnpackView | app.py:32-34 | With a model, the store's rows unpack into that model's history. Without one, any non-empty result fails to unpack. |
| Relay.SeedOnlyWhenNew | app.py:31-40 | The conversation ends with the user message. It holds a system message, only in front, exactly when the stored history is empty; otherwise it is the stored history followed by the user message. |
| Relay.HistoryNoSystem | app.py:39-57 | A store without system records yields histories without system messages, so the seed is never read back. |
| Relay.GeminiPromptOfConversation | app.py:31-47 | The seed never reaches Gemini. The prompt is the stored history's prompt, if any, then one `user: ` line for the new message. |
| Relay.ChatHistory | app.py:39-57 | Over the records `/chat` appends, each provider history of the session grows by exactly the user turn and that provider's reply. Every other (session, model) history is unchanged. |
| Relay.ChatHistoryOwn | app.py:39-57 | One provider's history of the session grows by exactly the user message and that provider's reply. |
| Relay.ChatHistoryElsewhere | app.py:39-57 | No history other than the session's three provider histories and its unfiltered one changes. |
| Relay.ContinueHistory | app.py:76-88 | With a reply, the selected history grows by the user message and the reply. With or without one, no other history changes. |
| Relay.TouchedActive | app.py:39-41 | A run of saves for one session leaves it created at the first save (or keeps its old creation time) and last active at the last save. |
| Relay.ActiveAgain | app.py:56-57 | A second run of saves keeps the creation time established by the first and moves the last activity to its own end. |
| Store.Database.constructor | database.py:7-14 | An empty, consistent store. |
| Store.Database.SaveMessage | database.py:16-40 | Exactly one record with the given session, model, role and content is appended. The session record is created on first use and otherwise only its last activity is refreshed. The clock advances by one and `Valid()` is kept. |
| Store.TouchEffect | database.py:19-31 | The session gains a record if it had none (created and last active now). An existing one keeps its creation time and becomes last active now. Every other session is untouched. |
| Store.Touch | database.py:19-31 | Defines the session-table upsert of `save_message`. `Store.TouchEffect` states its effect. |
| Store.SaveKeepsSessions | database.py:19-31 | Saving keeps every session record well formed. The touched one is last active now, and an existing one keeps its creation time. |
| Store.SaveKeepsIndex | database.py:19-31 | Moving the touched session to the front keeps the recency index exact and strictly ordered. |
| Store.SaveKeepsRecords | database.py:34-40 | The appended record keeps the records chronological and consistent with the session table. |
| Store.Database.GetConversation | database.py:42-59 | The rows are exactly `View`: the records of the session (and the model, when given), in save order, as pairs or triples. |
| Store.View | database.py:42-57 | Defines what `get_conversation` returns: the selected records, as pairs with a model and as triples without one. `Store.ViewShape`, `Store.ViewSnoc`, `Store.SaveThenGet` and `Store.SaveElsewhere` state its properties. |
| Store.History | app.py:32-34 | Defines the stored history a handler reads: the selected records as role/content messages. `Relay.UnpackView` proves that the handler's unpacking of `View` gives it. |
| Store.Matching | database.py:44-47 | A record is selected exactly when it belongs to the session and, with a model, to the model. Nothing is added. |
| Store.MatchingChronological | database.py:49 | The selected records are in timestamp order. |
| Store.ViewShape | database.py:54-57 | With a model every row is a (role, content) pair; without one every row is a (model, role, content) triple. |
| Store.ViewSnoc | database.py:51-57 | One more record adds its row at the end exactly when the query selects it. |
| Store.SaveThenGet | database.py:34-55 | Round trip: after a save, `get_conversation` for that session and model ends with the saved (role, content) pair, unchanged, after the earlier ones. |
| Store.SaveElsewhere | database.py:34-57 | A saved record is invisible to every query that does not select it. |
| Store.MatchingConcat | database.py:44-52 | Selection distributes over appended records. |
| Store.Database.ClearSession | database.py:61-69 | The records become `Others`: every record of the session is gone and the rest keep their order. The session record is removed and `Valid()` is kept. |
| Store.Filter | database.py:64-66 | The deletion loop keeps exactly `Others`. |
| Store.Others | database.py:64-66 | A record is kept exactly when it belongs to another session. |
| Store.ClearRemovesAll | database.py:64-69 | After clearing, no query for the session finds anything. |
| Store.ClearKeepsOthers | database.py:64-69 | Clearing leaves every query about another session as it was. |
| Store.ClearIdempotent | database.py:61-69 | Clearing twice leaves the same records as clearing once. |
| Store.ClearKeepsRecords | database.py:61-69 | The remaining records stay chronological and consistent with the remaining sessions. |
| Store.ClearKeepsIndex | database.py:69 | The cleared session leaves the recency index, and the rest keep their order. |
| Store.WithoutByRecency | database.py:74 | Removing an id from a recency-ordered list keeps it ordered. |
| Store.Database.GetAllSessions | database.py:71-84 | One entry per session record, equal to it, in strictly decreasing last activity. |
| Providers.Normalise | llm_service.py:22-23 | A reply passes through unchanged. An exception becomes a string starting with `Error: ` from which its message can be read back. |
| Providers.CallOpenAI | llm_service.py:15-23 | The messages go to the OpenAI client unchanged with gpt-4o-mini. The result is the reply text, or an `Error: ` string when the client raises. |
| Providers.CallClaude | llm_service.py:25-33 | The same contract, through the OpenRouter client, with the Claude model. |
| Providers.CallGemini | llm_service.py:35-45 | The same contract, through the Gemini client, on the flattened prompt. |
| Providers.NonSystem | llm_service.py:38 | Exactly the non-system messages are kept, with no system message left, and never more messages than given. |
| Providers.PromptLine | llm_service.py:38 | Defines one prompt line, `role: content`. `Providers.ParseLineOf` reads it back. |
| Providers.PromptLines | llm_service.py:38 | Defines the list comprehension: one line per non-system message, in order. |
| Providers.Prompt | llm_service.py:38 | Defines the Gemini prompt: the lines joined by newlines. `Providers.PromptRoundTrip` and `Providers.PromptNonEmpty` state its properties. |
| Providers.PromptRoundTrip | llm_service.py:38 | Round trip: when no content holds a newline, the prompt reads back as exactly the non-system messages in their original order. |
| Providers.PromptNonEmpty | llm_service.py:38 | The prompt is empty exactly when the history is empty or holds only system messages. |
| Providers.ParseLineOf | llm_service.py:38 | A non-system message's `role: content` line reads back as that message. |
| Providers.PromptLinesSingle | llm_service.py:38 | When no content holds a newline, neither does any prompt line, so the join separates them unambiguously. |
| Text.StripSpec | create_pdf_simple.py:88 | `strip` gives the slice of the line left after dropping a leading and a trailing run, both made only of whitespace. The slice neither starts nor ends with whitespace, and it is empty exactly when the line is all whitespace. |
| Text.TrimStartSpec | create_pdf_simple.py:88 | `lstrip` keeps a suffix and drops only whitespace, stopping at the first other character. |
| Text.TrimEndSpec | create_pdf_simple.py:88 | `rstrip` keeps a prefix and drops only whitespace, stopping at the last other character. |
| Text.Strip | create_pdf_simple.py:88 | Defines `str.strip()`, as `rstrip` after `lstrip`. `Text.StripSpec` states what it keeps and drops. |
| Text.Split | create_pdf_simple.py:84 | At least one piece, and no piece holds the separator. |
| Text.JoinSplit | create_pdf_simple.py:84 | Joining the pieces of a split gives the text back. |
| Text.Join | create_pdf_simple.py:121 | Defines `sep.join(xs)`, which is also used at llm_service.py line 38. `Text.JoinSplit` and `Text.SplitJoin` relate it to `Split`. |
| Text.SplitJoin | create_pdf_simple.py:121 | Splitting a join of separator-free pieces gives the pieces back. |
| Text.ReplaceNoOccurrence | create_pdf_simple.py:126 | A replacement leaves no occurrence of the pattern when the replacement shares no character with it. It creates no new occurrence of such a text. |
| Text.ReplaceAbsent | create_pdf_simple.py:126 | Replacing a pattern that does not occur changes nothing. |
| Text.Replace | create_pdf_simple.py:126 | Defines `str.replace`: left to right, without overlaps. `Text.ReplaceAbsent` and `Text.ReplaceNoOccurrence` state its properties. |
| Markdown.Parse | create_pdf_simple.py:84-153 | The story built by the loop is exactly `Render` of the content. |
| Markdown.ParseLine | create_pdf_simple.py:88-153 | One pass of the loop body adds `Step`'s blocks and moves the index to `Step`'s next line. |
| Markdown.Render | create_pdf_simple.py:84-153 | Defines the story of a document: the blocks of `RenderFrom` over its lines, from line 0. `Markdown.Parse` computes it and `Markdown.TitleOnlyFirst` states a property of it. |
| Markdown.RenderFrom | create_pdf_simple.py:87-153 | Defines the blocks the loop adds from line `i` to the end: one `Step`, then the rest from `Step`'s next index. |
| Markdown.Classify | create_pdf_simple.py:90-135 | Defines the `if`/`elif` chain on the stripped line. The tests are in the source's order, and the title test applies only to line 0. |
| Markdown.LineBlocks | create_pdf_simple.py:90-146 | Defines the blocks a line adds in every branch except a code fence. The `*Blocks` lemmas below state them branch by branch. |
| Markdown.GatherCode | create_pdf_simple.py:115-119 | The inner loop gathers exactly the raw lines up to the next fence (or the end) and stops at that fence. |
| Markdown.FenceEnd | create_pdf_simple.py:117-119 | The first fence line at or after the start, or the end of the input. No line before it is a fence. |
| Markdown.Step | create_pdf_simple.py:87-153 | The index strictly increases, by one line except past a fenced block, so every line is consumed once and the loop ends. |
| Markdown.StepBlank | create_pdf_simple.py:88-93 | A blank (after strip) line adds exactly one small spacer and advances one line. |
| Markdown.TitleBlocks | create_pdf_simple.py:96-98 | `# ` makes a title with `line[2:]` followed by a spacer on line 0 only; elsewhere it is a paragraph. |
| Markdown.TitleOnlyFirst | create_pdf_simple.py:96-98 | A story has a title only as its first block, exactly when the stripped first line starts with `# `. |
| Markdown.NoLaterTitle | create_pdf_simple.py:96 | No step after the first line makes a title. |
| Markdown.HeadingBlocks | create_pdf_simple.py:101-111 | `## `, `### ` and `#### ` make headings of levels 1, 2 and 3 with 3, 4 and 5 characters dropped. Level 1 comes after a spacer. |
| Markdown.StepFence | create_pdf_simple.py:114-122 | A fence gathers the raw, unstripped lines up to the next fence or the end and consumes the closing fence. It adds no block when nothing was gathered; otherwise it adds one code block that splits back into exactly the gathered lines. |
| Markdown.BulletBlocks | create_pdf_simple.py:125-127 | A `- ` or `* ` line is one paragraph holding the bullet text. |
| Markdown.NumberedBlocks | create_pdf_simple.py:130-132 | A numbered line is one paragraph holding the line with its number removed. |
| Markup.BulletMarksGone | create_pdf_simple.py:125-127 | The bullet text starts with `• `. No check or cross mark and no `[ ]` or `[x]` box is left in it. |
| Markup.BulletPlain | create_pdf_simple.py:126-127 | A bullet line without marks or boxes keeps its text after the two-character marker. |
| Markup.BulletText | create_pdf_simple.py:126-127 | Defines the bullet rewrite: the marker is dropped, the four replacements are applied in source order, and `• ` is put in front. |
| Markup.Mapped | create_pdf_simple.py:126 | The symbol each mark becomes is a single character. It is neither `[` nor a mark, so no later replacement touches it. |
| Markup.BulletMarkMapped | create_pdf_simple.py:126-127 | Each mark is rewritten in place to its own symbol: ✅ to ✓, ❌ to ✗, `[ ]` to ☐ and `[x]` to ☑. The text before it (free of marks and `[`) and the mark-free text after it are kept. |
| Markup.MarkRewritten | create_pdf_simple.py:126 | The four chained replacements turn one mark followed by mark-free text into the mark's symbol followed by that text. |
| Markup.DigitRunSpec | create_pdf_simple.py:130 | The digit run is the longest prefix of ASCII digits. |
| Markup.NumberedText | create_pdf_simple.py:130-131 | Defines `re.sub(r'^\d+\.\s*', '', line)`, applied to numbered lines. `Markup.NumberedTextSpec` and `Markup.NumberedRoundTrip` state what it removes. |
| Markup.NumberedTextSpec | create_pdf_simple.py:130-131 | The result is a suffix of the line. For a numbered line only whitespace after the number and dot is dropped, and the result does not start with whitespace. Any other line is unchanged. |
| Markup.NumberedRoundTrip | create_pdf_simple.py:130-132 | Round trip: digits, a dot, whitespace and a text not starting with whitespace give back exactly that text. |
| Markup.Close | create_pdf_simple.py:139 | The non-greedy group ends at the first later delimiter, with no newline before it. |
| Markup.Span | create_pdf_simple.py:139 | A match starts with the delimiter, has a non-empty group and ends with the delimiter. |
| Markup.Substitute | create_pdf_simple.py:139-141 | Defines `re.sub` with a lazy group between two delimiters: each match, from left to right, becomes the open tag, the group and the close tag. |
| Markup.Bold | create_pdf_simple.py:139 | Defines `Substitute` with `**` and the `<b>` tags. |
| Markup.Code | create_pdf_simple.py:141 | Defines `Substitute` with a backtick and the Courier `<font>` tags. |
| Markup.SubstituteWrap | create_pdf_simple.py:139-141 | A non-empty single-line word between two delimiters becomes the open tag, the word and the close tag. The rest is rewritten on its own. |
| Markup.SubstituteAbsent | create_pdf_simple.py:139-141 | Text without the delimiter is unchanged. |
| Markup.SubstitutePrefix | create_pdf_simple.py:139-141 | Text free of the delimiter's first character passes through unchanged in front of the rest. |
| Markup.EscapeAsChars | create_pdf_simple.py:143 | The three chained replacements escape each character independently; `&` first, so no entity is escaped twice. |
| Markup.UnescapeEscape | create_pdf_simple.py:143 | Round trip: unescaping the escaped text gives the text back. |
| Markup.EscapePlain | create_pdf_simple.py:143 | Text without `&`, `<` and `>` is its own escape. |
| Markup.Escape | create_pdf_simple.py:143 | Defines the three chained `replace` calls, `&` first. `Markup.EscapeAsChars` proves it equal to per-character escaping. |
| Markup.RestoreTag | create_pdf_simple.py:145-146 | Defines one `replace` that puts an escaped tag back. |
| Markup.Restore | create_pdf_simple.py:145-146 | Defines the four restoring replacements, in source order. `Markup.RestoreSafe` states what they keep. |
| Markup.ParagraphText | create_pdf_simple.py:137-146 | Defines a regular paragraph's text: bold, inline code, escaping, then restoring. `Markup.ParagraphSafe` and `Markup.ParagraphPlain` state its properties. |
| Markup.EscapeSafe | create_pdf_simple.py:143 | Every escaped text is `Safe`. |
| Markup.RestoreSafe | create_pdf_simple.py:145-146 | Restoring the four tags keeps a `Safe` text `Safe`. |
| Markup.ParagraphSafe | create_pdf_simple.py:135-146 | For every line, the paragraph text is `Safe`. |
| Markup.SafeSpecials | create_pdf_simple.py:139-146 | In a `Safe` text every `<` opens one of `<b>`, `</b>`, `<font face="Courier">`, `</font>`. Every `>` ends one of them, and every `&` starts `&amp;`, `&lt;` or `&gt;`. |
| Markup.ParagraphPlain | create_pdf_simple.py:135-146 | A line without `&`, `<`, `>`, `*` and backticks is its own paragraph text. |

## Left out

- The Flask plumbing is not modelled: routing, `request.json`, `jsonify`, the templates and the secret key. Handlers are methods taking plain arguments.
- `data.get('message')` returning `None` is not modelled. A `session_id` key present with the value `None` is not modelled either. An absent `session_id` is `None` of an `Option`, and an absent or falsy model is the empty string.
- The `ThreadPoolExecutor` fan-out of `/chat` is sequential in the model. The three calls are independent and all return before any reply is saved, so the stored result is the same.
- Firebase initialisation, the Firestore client and `SERVER_TIMESTAMP` are replaced by in-memory fields and a clock. One clock tick per save means a record and its session share one timestamp value.
- The OpenAI, OpenRouter and google-genai SDK calls are opaque `Client` functions fixed at construction. Their network behaviour is not modelled.
- Providers.CallOpenAI: a `None` reply is not modelled. The SDK's `message.content` (llm_service.py line 21) may be `None`, and the adapter then returns `None` without raising; in the model a completed call always carries a string.
- Providers.CallClaude: a `None` reply is not modelled, for the same reason (`message.content` at llm_service.py line 31).
- Providers.CallGemini: a `None` reply is not modelled, for the same reason (`response.text` at llm_service.py line 43). `/chat` and `/continue` would then store and return `None`, which the model's string-valued records cannot hold.
- The reportlab styles, `Paragraph`/`Preformatted` objects and `doc.build` are abstract `Block`s. Spacer sizes are tenths of an inch.
- The `except` branch around `Paragraph(...)`, which adds a 0.05-inch spacer, is not modelled, because when reportlab's markup parser raises is not visible here. The model always adds the paragraph.
- Reading the Markdown file, the missing `os` import of the script's PDF step, and everything outside lines 84-153 of `create_pdf_simple.py` are not modelled.
- Python's `re` is modelled only for the four patterns used. `\d` is modelled as ASCII digits only; Unicode decimal digits are left out. `\s` and `strip()` use the set of characters `str.isspace` accepts.
- In `chat`, the `conversations` dict is built in one loop and extended in another; the model keeps both as separate steps (`LoadAll`, `AddUserMessage`). The store writes of the two save loops are `SaveTurns`.
- The `if`/`elif` chain of the parsing loop is factored into `Classify` and `LineBlocks`. `Step` tests the chain in the same order.
- `convert_to_pdf.py`, `list_gemini_models.py` and `static/script.js` are not part of this model.
