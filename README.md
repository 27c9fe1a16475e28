# AI study agent: the question-routing flow

A Dafny model of the routing core of the AI study agent (`core/agent.py`).
A user's question goes through a small graph of three answer strategies:

- `pdf_rag` answers from the uploaded PDFs through a retriever and Gemini;
- `groq` is a chat model that sees the conversation history;
- `web_search` summarises DuckDuckGo results.

`router` inspects the question and the latest `source`/`result` and picks
the next node. `run_agent` logs the question and the answer in the history
store.

The model has these modules:

- `Wrappers`: `Option`.
- `Text`: the Python string operations the core uses: `lower()`, substring `in`, `join`, `strip()`.
- `Memory`: the history store as a class over a `seq<Turn>`.
- `AgentState`: the state dictionary as `FlowState`, with `source` as a closed datatype and `result` as `Option<string>`. It also has the external services as an `Env` of oracle functions.
- `Router`: `router` and its rules.
- `Nodes`: the three node functions. The two nodes that loop in the source are methods proved against specification functions.
- `Graph`: the wiring as a recursion on a rank that every edge lowers, `RunFlow` as the loop that drives it, and `RunAgent`.
- `Scenarios`: concrete runs.

The external services are parameters. `Env.retriever` is `None` when no
vector store exists, and otherwise maps a question to ranked chunks.
`Env.search(query, maxResults)` may return nothing. `Env.gemini` and
`Env.groq` map a `Prompt` (the data placed into the prompt template) to
the generated text.

Three behaviours of the code are easy to misread, and the model follows the code in each:

- The PDF fallback test is a substring test on the lowercased answer ("i couldn't find" anywhere in it), not an exact match on the sentinel phrase.
- The keyword override is only evaluated after `pdf_rag` has run, because `pdf_rag` is the entry point. So with no index, a keyword question writes the labels `no_pdf, web` (`Graph.KeywordFlow`). Without a keyword the labels are `no_pdf, groq` or `no_pdf, groq, web` (`Graph.NoIndexFlow`).
- The chat node loads the history inside the flow. That is after `run_agent` has already appended the user turn, so the transcript it renders already ends with the question it is asked (`Graph.ChatTranscriptEndsWithQuestion`).

## Model

| member | source | states |
|---|---|---|
| `Text.Lower` | core/agent.py:145 | `question.lower()` keeps the length and maps each character through the ASCII case mapping |
| `Text.LowerAppend` | core/agent.py:145 | lowercasing works character by character, so it distributes over concatenation |
| `Text.Contains` | core/agent.py:155 | `sub in s` holds only when `sub` is no longer than `s` |
| `Text.Join` | core/agent.py:60 | `sep.join(parts)` is empty for no parts and is the part itself for one; it starts with the first part, followed by `sep` when there are more |
| `Text.JoinAppend` | core/agent.py:60 | joining one more part appends `sep` and that part |
| `Text.JoinEndsWithLast` | core/agent.py:60 | a join of one or more parts ends with the last part |
| `Text.Strip` | core/agent.py:109 | `text.strip()` is never longer than its input and neither starts nor ends with whitespace |
| `Text.StripInfix` | core/agent.py:109 | `text.strip()` is one contiguous piece of the input, with only whitespace cut before and after it |
| `Text.StripEmptyIff` | core/agent.py:109 | stripping yields the empty string exactly when the input is all whitespace |
| `Text.StripIdempotent` | core/agent.py:109 | stripping a stripped text changes nothing |
| `Memory.HistoryStore.constructor` | core/memory.py:6-16 | the store starts with the saved log (the empty log when no file exists) |
| `Memory.HistoryStore.LoadHistory` | core/memory.py:6-16 | `load_history()` returns the whole log, in order |
| `Memory.HistoryStore.AddMessage` | core/memory.py:27-31 | `add_message` appends exactly one turn at the end and changes nothing else |
| `AgentState.Initial` | core/agent.py:198 | the flow starts from `{"question": question}`: no result and no source |
| `Router.MentionsAcademicKeyword` | core/agent.py:145-155 | the keyword test holds only for questions of at least three characters, the shortest keyword's length |
| `Router.KeywordTestIgnoresCase` | core/agent.py:145-155 | the keyword test gives the same answer on the question and on its lowercase form |
| `Router.IsBlank` | core/agent.py:163-172 | a result that is not blank is present and non-empty |
| `Router.Unanswered` | core/agent.py:163-172 | a blank result is always unanswered; a present, non-empty result is unanswered only when it is at least as long as the phrase |
| `Router.UnansweredIgnoresCase` | core/agent.py:165-172 | the give-up test gives the same answer on an answer and on its lowercase form |
| `Router.PhraseAnywhereUnanswered` | core/agent.py:165-172 | an answer with the lowercase phrase anywhere in it, whatever comes before and after, is unanswered |
| `Router.RouteFor` | core/agent.py:144-177 | `router` answers `web_search` exactly when there is a keyword or a `groq` answer is blank or unsure; it answers `groq` only after a `pdf_rag` label; it never answers `groq` after a `web` label |
| `Router.KeywordRoutesToWebSearch` | core/agent.py:145-156 | a question whose lowercase form contains any academic keyword is routed to web search, whatever `source` and `result` are |
| `Router.PdfMissRoutesToGroq` | core/agent.py:159-160 | with no keyword, `source` `no_pdf` or `no_pdf_match` routes to the chat model |
| `Router.PdfAnswerRouting` | core/agent.py:163-167 | with no keyword and `source` `pdf`, the router picks the chat model exactly when the result is None or empty, or its lowercase form contains "i couldn't find"; otherwise the flow ends |
| `Router.ChatAnswerRouting` | core/agent.py:170-177 | with no keyword and `source` `groq`, the router picks web search exactly when the result is None or empty, or contains "i don't know"; otherwise the flow ends |
| `Router.WebAnswerEnds` | core/agent.py:155-177 | with no keyword, a `web` result ends the flow whatever it says |
| `Router.NoRouteBackToGroq` | core/agent.py:159-177 | after a chat or web answer the router never chooses the chat model again |
| `Router.ExamDateIsSubsumed` | core/agent.py:148-155 | a question containing "exam date" also contains "exam", so that keyword never changes a decision |
| `Nodes.PdfContext` | core/agent.py:60 | the PDF context is empty with no chunks, and otherwise starts with the top chunk's text, followed by a blank line when there is a second chunk |
| `Nodes.PdfContextIgnoresTail` | core/agent.py:60 | chunks ranked below the third never reach the PDF prompt |
| `Nodes.PdfContextSingle` | core/agent.py:60 | with one chunk the context is exactly its page content |
| `Nodes.PdfContextTwo` | core/agent.py:60 | with two chunks the context is the first text, a blank line, then the second |
| `Nodes.PdfContextThree` | core/agent.py:60 | with three or more chunks the context is exactly the first three texts in rank order, separated by blank lines |
| `Nodes.PdfRagStep` | core/agent.py:46-64 | no retriever gives `no_pdf` with no result; zero chunks give `no_pdf_match` with no result; otherwise the result is Gemini's answer on the first chunks joined by blank lines, labelled `pdf`; the question is kept |
| `Nodes.HitText` | core/agent.py:77 | a hit's text is empty exactly when both its body and its snippet are missing or empty |
| `Nodes.TitleOf` | core/agent.py:78 | a non-empty title is the hit's own `title` field; a missing field gives the empty title |
| `Nodes.HitLine` | core/agent.py:80 | a snippet line is as long as the title, the two characters `: ` and the text together |
| `Nodes.HitLineParts` | core/agent.py:80 | a snippet line is the title, then `: `, then the hit's text |
| `Nodes.SnippetLinesConcat` | core/agent.py:75-80 | snippet lines keep the order of the hits: lines of earlier hits come first |
| `Nodes.SnippetLinesSingle` | core/agent.py:76-80 | one hit contributes its `title: text` line exactly when its text is non-empty |
| `Nodes.SnippetLines` | core/agent.py:75-80 | the `snippets` list never has more lines than there are hits |
| `Nodes.SnippetLinesEmptyIff` | core/agent.py:75-83 | no snippet line survives exactly when no hit has a body or a snippet |
| `Nodes.SnippetLinesSound` | core/agent.py:75-80 | every snippet line is the `title: text` line of a hit that has text |
| `Nodes.SnippetLinesComplete` | core/agent.py:75-80 | every hit that has text contributes its line |
| `Nodes.WebSearchStep` | core/agent.py:67-111 | `source` is always `web`; no hits give "No relevant web results found."; hits without text give "No relevant content found to summarize."; otherwise the result is the stripped summary of the joined snippet lines; the question is kept |
| `Nodes.WebResultEmptyIff` | core/agent.py:71-111 | the web result is empty exactly when some snippet survived and the summary was all whitespace |
| `Nodes.WebSearchNode` | core/agent.py:67-111 | the node with its snippet-collecting loop returns exactly the state `WebSearchStep` describes |
| `Nodes.Transcript` | core/agent.py:119-122 | `history_text` is empty for an empty history and otherwise ends with the latest turn's line |
| `Nodes.RoleLabel` | core/agent.py:121 | the label is `User` exactly for the user role |
| `Nodes.TurnLine` | core/agent.py:122 | every rendered line is non-empty and ends with a newline |
| `Nodes.RenderedLine` | core/agent.py:121-122 | the line the loop builds from the role label and the content is the turn's `TurnLine` |
| `Nodes.TranscriptSnoc` | core/agent.py:120-122 | one more turn appends exactly its line to the transcript |
| `Nodes.TranscriptConcat` | core/agent.py:119-122 | the transcript of a longer history extends the transcript of the shorter one |
| `Nodes.TranscriptSingle` | core/agent.py:120-122 | a single message renders as its own line |
| `Nodes.TranscriptSplit` | core/agent.py:119-122 | a message is rendered after everything before it and before everything after it |
| `Nodes.TranscriptAt` | core/agent.py:119-122 | message `i` is rendered, as one line, between the transcripts of the messages before and after it |
| `Nodes.TurnLineLabels` | core/agent.py:121-122 | a user message renders as `User: content` and any other as `Assistant: content`, each ending in a newline |
| `Nodes.GroqStep` | core/agent.py:114-139 | the chat node's result is the chat model's answer on the rendered history and the question, labelled `groq`; the question is kept |
| `Nodes.GroqMemoryNode` | core/agent.py:114-139 | the node loads the history from the store and builds its transcript in a loop; it returns exactly the state `GroqStep` describes |
| `Graph.Apply` | core/agent.py:182-184 | every node keeps the question and sets a source: `pdf_rag` one of `no_pdf`/`no_pdf_match`/`pdf`, `groq` `groq`, `web_search` `web` |
| `Graph.Next` | core/agent.py:186-190 | after `web_search` the flow ends; no edge leads back to `pdf_rag`; after a `groq` or `web` label no edge leads to `groq` |
| `Graph.Resume` | core/agent.py:181-193 | the rest of a run from a node starts with that node, writes one label per node run, runs no more nodes than the node's rank, and leaves a labelled final state |
| `Graph.Flow` | core/agent.py:189-199 | `flow.invoke({"question": q})` runs between one and three nodes, starting at `pdf_rag`, one label per node |
| `Graph.ResumeAtWeb` | core/agent.py:190 | once `web_search` runs, the flow ends after it |
| `Graph.ResumeAtChat` | core/agent.py:187 | once `groq` runs, it is followed by `web_search` or by the end, never by `groq` |
| `Graph.FlowCases` | core/agent.py:181-193 | a whole run in closed form, one case per decision of the router after `pdf_rag` and after `groq` |
| `Graph.FlowShape` | core/agent.py:181-193 | every run starts at `pdf_rag`, visits each node at most once and at most three in all, and runs `web_search` only last; the final label is the last node's, always `pdf`, `groq` or `web`; the final state keeps the question and always has a result |
| `Graph.KeywordFlow` | core/agent.py:186-189 | a keyword question runs `pdf_rag` and then `web_search`, and ends labelled `web`; with no index its labels are `no_pdf, web` |
| `Graph.StopsAfterPdfIff` | core/agent.py:186-189 | the flow stops after `pdf_rag` exactly when there is no keyword and the PDF answer exists, is non-empty and has no "i couldn't find" |
| `Graph.ChatConsultedIff` | core/agent.py:186-189 | the chat model runs exactly when there is no keyword and the PDF attempt falls back |
| `Graph.WebConsultedIff` | core/agent.py:186-189 | web search runs exactly when the question has a keyword or both the PDF and the chat attempt fall back |
| `Graph.NoIndexFlow` | core/agent.py:52-53 | with no index and no keyword the labels are `no_pdf, groq`, or `no_pdf, groq, web` exactly when the chat answer is blank or unsure |
| `Graph.RunFlow` | core/agent.py:193-199 | the node-by-node loop produces exactly the run that `Flow` defines |
| `Graph.RunAgent` | core/agent.py:196-205 | the history becomes the old history, then the user's question, then the assistant's answer; the answer and label returned are the final state's, for a flow that saw the history with the question already logged |
| `Graph.ChatTranscriptEndsWithQuestion` | core/agent.py:115-122 | inside `run_agent`, the transcript the chat node renders ends with `User: question` |
| `Scenarios.JeeExamGoesToWeb` | core/agent.py:145-156 | "When is the JEE exam?" runs `pdf_rag` then `web_search`, and ends labelled `web`, with or without an index |
| `Scenarios.ChapterQuestionHasNoKeyword` | core/agent.py:148-155 | no academic keyword occurs in "Summarize chapter 2" |
| `Scenarios.ChapterQuestionWithoutIndex` | core/agent.py:159-160 | with no index, "Summarize chapter 2" writes the labels `no_pdf, groq` (then `web` only if the chat answer is blank or unsure), and ends labelled `groq` when the chat answer is usable |
| `Scenarios.EmptySnippetIsDropped` | core/agent.py:75-85 | of the hits `A` with an empty snippet and `B` with snippet `x`, only `B: x` reaches the summary prompt |
| `Scenarios.KelvinSignAnswerEnds` | core/agent.py:170-177 | with the ASCII-only lowercasing, a chat answer "I don't \u212Anow" does not count as unsure, so the flow ends after `groq` (the one place where that lowercasing and Python's part ways) |

## Left out

- Text.Lower: only ASCII letters are lowercased. Python's `str.lower()` also maps non-ASCII letters, but only two of them lowercase to ASCII. The Kelvin sign U+212A becomes `k`, and `İ` becomes `i` followed by U+0307. No academic keyword contains `k` or ends in `i`, and in "i couldn't find" every `i` is followed by another ASCII character. So the keyword test and the PDF fallback test come out as in Python. The one divergence is the chat-answer test on core/agent.py:172. Python lowercases "I don't \u212Anow" to "i don't know" and routes it to `web_search`, but the model routes it to the end (`Scenarios.KelvinSignAnswerEnds`).
- Text.Strip: only space, tab, newline, carriage return, vertical tab and form feed are stripped. That is a subset of what Python's `str.strip()` removes, which also includes the ASCII separators U+001C to U+001F and non-ASCII whitespace.
- The language models: the prompt wording, the model settings and `getattr(answer, "content", str(answer))` are not modelled. Each model is a total function from the prompt's data to text. A generation failure, which the source lets propagate, is not modelled.
- The retriever: building, loading and persisting the FAISS store, the embeddings and the similarity threshold (`core/rag.py`) are not modelled. The retriever is the oracle `Env.retriever`. Chunk metadata is dropped.
- The web search provider: the DuckDuckGo call, the blank-query check and the swallowed exception (`tools/web_search.py`) are not modelled. Search is an oracle that may return an empty sequence. A hit's `title` present with a null value is not modelled.
- History persistence: reading and writing the JSON file, the corrupt-file fallback and the swallowed write errors (`core/memory.py`) are not modelled. The store is an in-memory `seq<Turn>`.
- Roles: a role is `User` or `Assistant`, which is all that `add_message` ever writes. A hand-edited file with another role string would render as "Assistant", and that case is not modelled.
- LangGraph runtime details: `router` returns the string `"end"` rather than the `END` constant, and `groq` has both a conditional edge and a plain edge to END. The model follows the router-driven behaviour: `End` stops the flow, and after `groq` only the router decides.
- `run_agent` defaults a missing result to `""`. That default is unreachable, because every final state carries a result (`Graph.FlowShape`). The debug `print` is not modelled.
- The Streamlit UI (`main.py`), `tools/pdf_utils.py`, `tools/pdf_retriever.py`, `scripts/build_vector_store.py` and `core/config.py` are not part of this model.
- Concurrency is not modelled. There is one flow at a time per store.
