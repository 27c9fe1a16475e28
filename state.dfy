/**
 * The values threaded through the question-routing graph of `core/agent.py`
 * and the external services its nodes call.
 */
module AgentState {
  import opened Wrappers

  /** The `source` label a node writes into the state. */
  datatype Source = NoPdf | NoPdfMatch | Pdf | Groq | Web

  /**
   * The state dictionary. `result == None` stands for Python's `None` and for
   * an absent key; `source == None` only for the initial state, which has no
   * `source` key yet.
   */
  datatype FlowState = FlowState(question: string, result: Option<string>, source: Option<Source>)

  /** `{"question": question}`, the state the graph is invoked with. */
  function Initial(question: string): (st: FlowState)
    ensures st.question == question && st.result.None? && st.source.None?
  {
    FlowState(question, None, None)
  }

  /** A retrieved chunk; only its `page_content` is consumed. */
  datatype Doc = Doc(pageContent: string)

  /** One search hit; each field is absent (`None`) or holds a string. */
  datatype SearchHit = SearchHit(title: Option<string>, body: Option<string>, snippet: Option<string>)

  /** What a node sends to a language model; the surrounding instruction text is not modelled. */
  datatype Prompt =
    | RagPrompt(context: string, question: string)
    | SummaryPrompt(question: string, searchResults: string)
    | ChatPrompt(transcript: string, question: string)

  /** `retriever.invoke(question)`: ranked chunks for a question. */
  type Retriever = string -> seq<Doc>

  /**
   * The external services, as oracles. `retriever` is `None` when no vector
   * store is on disk; `search(query, maxResults)` may return nothing;
   * `gemini` and `groq` map a prompt to the generated text.
   */
  datatype Env = Env(
    retriever: Option<Retriever>,
    search: (string, nat) -> seq<SearchHit>,
    gemini: Prompt -> string,
    groq: Prompt -> string)
}
