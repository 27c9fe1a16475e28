/**
 * The three node functions of `core/agent.py`: `pdf_rag_node`,
 * `web_search_node` and `groq_memory_node`. Each returns the input state
 * with `result` and `source` replaced and the question kept (`{**state, ...}`).
 */
module Nodes {
  import opened Wrappers
  import opened Text
  import opened Memory
  import opened AgentState

  /** `docs[:3]`: how many retrieved chunks reach the PDF prompt. */
  const TopDocs: nat := 3

  /** `max_results=4` of the web search call. */
  const MaxWebResults: nat := 4

  /** The separator both `"\n\n".join(...)` calls use. */
  const Separator: string := "\n\n"

  const NoWebResults: string := "No relevant web results found."
  const NoSnippets: string := "No relevant content found to summarize."

  // ---------------------------------------------------------------- pdf_rag

  function PageContents(docs: seq<Doc>): (r: seq<string>)
    ensures |r| == |docs|
    ensures forall i :: 0 <= i < |docs| ==> r[i] == docs[i].pageContent
  {
    seq(|docs|, i requires 0 <= i < |docs| => docs[i].pageContent)
  }

  /** The prompt context: the page contents of the first (at most) three chunks, separated by blank lines. */
  function PdfContext(docs: seq<Doc>): (r: string)
    ensures |docs| == 0 ==> r == ""
    ensures |docs| >= 1 ==> docs[0].pageContent <= r
    ensures |docs| >= 2 ==> docs[0].pageContent + Separator <= r
  {
    var n := if |docs| < TopDocs then |docs| else TopDocs;
    Join(Separator, PageContents(docs[..n]))
  }

  /** Chunks ranked below the third never reach the prompt. */
  lemma PdfContextIgnoresTail(docs: seq<Doc>, extra: seq<Doc>)
    requires |docs| >= TopDocs
    ensures PdfContext(docs + extra) == PdfContext(docs)
  {
    assert (docs + extra)[..TopDocs] == docs[..TopDocs];
  }

  /** With a single chunk the context is exactly its text. */
  lemma PdfContextSingle(d: Doc)
    ensures PdfContext([d]) == d.pageContent
  {
  }

  /** With two chunks both texts reach the prompt, a blank line between them. */
  lemma PdfContextTwo(docs: seq<Doc>)
    requires |docs| == 2
    ensures PdfContext(docs) == docs[0].pageContent + Separator + docs[1].pageContent
  {
    var a, b := docs[0].pageContent, docs[1].pageContent;
    assert PageContents(docs[..2]) == [a] + [b];
    JoinAppend(Separator, [a], b);
  }

  /** With three or more chunks exactly the first three reach the prompt, in rank order, separated by blank lines. */
  lemma PdfContextThree(docs: seq<Doc>)
    requires |docs| >= 3
    ensures PdfContext(docs) ==
              docs[0].pageContent + Separator + docs[1].pageContent + Separator + docs[2].pageContent
  {
    var a, b, c := docs[0].pageContent, docs[1].pageContent, docs[2].pageContent;
    assert PageContents(docs[..3]) == [a, b] + [c];
    JoinAppend(Separator, [a], b);
    assert [a] + [b] == [a, b];
    JoinAppend(Separator, [a, b], c);
  }

  /** `pdf_rag_node(state)`. */
  function PdfRagStep(env: Env, st: FlowState): (r: FlowState)
    ensures r.question == st.question
    ensures r.source == Some(NoPdf) <==> env.retriever.None?
    ensures r.source == Some(NoPdfMatch) <==>
              env.retriever.Some? && |env.retriever.value(st.question)| == 0
    ensures r.source == Some(Pdf) <==>
              env.retriever.Some? && |env.retriever.value(st.question)| > 0
    ensures r.result.None? <==> r.source != Some(Pdf)
    ensures r.source == Some(Pdf) ==>
              r.result == Some(env.gemini(RagPrompt(PdfContext(env.retriever.value(st.question)), st.question)))
  {
    match env.retriever
    case None => st.(result := None, source := Some(NoPdf))
    case Some(retrieve) =>
      var docs := retrieve(st.question);
      if |docs| == 0 then st.(result := None, source := Some(NoPdfMatch))
      else
        var answer := env.gemini(RagPrompt(PdfContext(docs), st.question));
        st.(result := Some(answer), source := Some(Pdf))
  }

  // ------------------------------------------------------------- web_search

  /** Python truthiness of an optional string field. */
  predicate Truthy(field: Option<string>)
  {
    field.Some? && field.value != ""
  }

  /** `r.get("body") or r.get("snippet") or ""`. */
  function HitText(h: SearchHit): (text: string)
    ensures text == "" <==> !Truthy(h.body) && !Truthy(h.snippet)
  {
    if Truthy(h.body) then h.body.value
    else if Truthy(h.snippet) then h.snippet.value
    else ""
  }

  /** `r.get("title", "")`. */
  function TitleOf(h: SearchHit): (title: string)
    ensures title != "" ==> h.title == Some(title)
    ensures h.title.None? ==> title == ""
  {
    match h.title
    case Some(t) => t
    case None => ""
  }

  /** `f"{title}: {snippet}"`. */
  function HitLine(h: SearchHit): (line: string)
    ensures |line| == |TitleOf(h)| + 2 + |HitText(h)|
  {
    TitleOf(h) + ": " + HitText(h)
  }

  /** A hit's line is its title, a colon and a space, then its text. */
  lemma HitLineParts(h: SearchHit)
    ensures TitleOf(h) + ": " <= HitLine(h)
    ensures HitLine(h)[|TitleOf(h)| + 2..] == HitText(h)
  {
  }

  /** The `snippets` list: one line per hit that has some text, in the order of the hits; filtering never adds lines. */
  function SnippetLines(hits: seq<SearchHit>): (r: seq<string>)
    ensures |r| <= |hits|
    decreases |hits|
  {
    if |hits| == 0 then []
    else (if HitText(hits[0]) != "" then [HitLine(hits[0])] else []) + SnippetLines(hits[1..])
  }

  /** Lines of earlier hits come before lines of later hits. */
  lemma {:induction false} SnippetLinesConcat(a: seq<SearchHit>, b: seq<SearchHit>)
    ensures SnippetLines(a + b) == SnippetLines(a) + SnippetLines(b)
    decreases |a|
  {
    if |a| == 0 {
      assert a + b == b;
    } else {
      assert (a + b)[1..] == a[1..] + b;
      SnippetLinesConcat(a[1..], b);
    }
  }

  /** A single hit contributes its line exactly when it has text. */
  lemma SnippetLinesSingle(h: SearchHit)
    ensures SnippetLines([h]) == if HitText(h) != "" then [HitLine(h)] else []
  {
  }

  /** No line survives exactly when no hit has a body or a snippet. */
  lemma {:induction false} SnippetLinesEmptyIff(hits: seq<SearchHit>)
    ensures SnippetLines(hits) == [] <==> forall i :: 0 <= i < |hits| ==> HitText(hits[i]) == ""
    decreases |hits|
  {
    if |hits| > 0 {
      SnippetLinesEmptyIff(hits[1..]);
      assert forall i :: 1 <= i < |hits| ==> hits[i] == hits[1..][i - 1];
      if HitText(hits[0]) != "" {
        assert SnippetLines(hits)[0] == HitLine(hits[0]);
      }
    }
  }

  /** Every line is the `title: text` line of a hit that has text. */
  lemma {:induction false} SnippetLinesSound(hits: seq<SearchHit>)
    ensures forall line :: line in SnippetLines(hits) ==>
              exists h :: h in hits && HitText(h) != "" && line == HitLine(h)
    decreases |hits|
  {
    if |hits| > 0 {
      SnippetLinesSound(hits[1..]);
      assert forall h :: h in hits[1..] ==> h in hits;
    }
  }

  /** Every hit that has text contributes its line. */
  lemma {:induction false} SnippetLinesComplete(hits: seq<SearchHit>)
    ensures forall h :: h in hits && HitText(h) != "" ==> HitLine(h) in SnippetLines(hits)
    decreases |hits|
  {
    if |hits| > 0 {
      SnippetLinesComplete(hits[1..]);
      assert forall h :: h in hits ==> h == hits[0] || h in hits[1..];
    }
  }

  /** `web_search_node(state)`, as the state it returns. */
  function WebSearchStep(env: Env, st: FlowState): (r: FlowState)
    ensures r.question == st.question && r.source == Some(Web)
    ensures |env.search(st.question, MaxWebResults)| == 0 ==> r.result == Some(NoWebResults)
    ensures |env.search(st.question, MaxWebResults)| > 0 && SnippetLines(env.search(st.question, MaxWebResults)) == [] ==>
              r.result == Some(NoSnippets)
    ensures SnippetLines(env.search(st.question, MaxWebResults)) != [] ==>
              r.result == Some(Strip(env.groq(SummaryPrompt(st.question,
                                   Join(Separator, SnippetLines(env.search(st.question, MaxWebResults)))))))
  {
    var results := env.search(st.question, MaxWebResults);
    if |results| == 0 then
      st.(result := Some(NoWebResults), source := Some(Web))
    else
      var snippets := SnippetLines(results);
      if |snippets| == 0 then
        st.(result := Some(NoSnippets), source := Some(Web))
      else
        var text := env.groq(SummaryPrompt(st.question, Join(Separator, snippets)));
        st.(result := Some(Strip(text)), source := Some(Web))
  }

  /**
   * The web node's answer is the empty string exactly when some snippet
   * survived and the summary came back as whitespace only; the two fixed
   * messages are never empty.
   */
  lemma WebResultEmptyIff(env: Env, st: FlowState)
    ensures var results := env.search(st.question, MaxWebResults);
      WebSearchStep(env, st).result == Some("") <==>
        SnippetLines(results) != [] &&
        AllSpace(env.groq(SummaryPrompt(st.question, Join(Separator, SnippetLines(results)))))
  {
    var results := env.search(st.question, MaxWebResults);
    if SnippetLines(results) != [] {
      StripEmptyIff(env.groq(SummaryPrompt(st.question, Join(Separator, SnippetLines(results)))));
    }
  }

  /** `web_search_node`, with its snippet-collecting loop. */
  method WebSearchNode(env: Env, st: FlowState) returns (r: FlowState)
    ensures r == WebSearchStep(env, st)
  {
    var results := env.search(st.question, MaxWebResults);
    if |results| == 0 {
      return st.(result := Some(NoWebResults), source := Some(Web));
    }
    var snippets: seq<string> := [];
    var i := 0;
    while i < |results|
      invariant 0 <= i <= |results|
      invariant snippets == SnippetLines(results[..i])
    {
      var hit := results[i];
      var snippet := HitText(hit);
      var title := TitleOf(hit);
      if snippet != "" {
        snippets := snippets + [title + ": " + snippet];
      }
      SnippetLinesConcat(results[..i], [hit]);
      SnippetLinesSingle(hit);
      assert results[..i + 1] == results[..i] + [hit];
      i := i + 1;
    }
    assert results[..i] == results;
    if |snippets| == 0 {
      return st.(result := Some(NoSnippets), source := Some(Web));
    }
    var combined := Join(Separator, snippets);
    var text := env.groq(SummaryPrompt(st.question, combined));
    r := st.(result := Some(Strip(text)), source := Some(Web));
  }

  // ------------------------------------------------------------ groq_memory

  /** `"User" if msg["role"] == "user" else "Assistant"`. */
  function RoleLabel(role: Role): (name: string)
    ensures name == "User" <==> role == User
  {
    if role == User then "User" else "Assistant"
  }

  /** `f"{role}: {msg['content']}\n"`. */
  function TurnLine(t: Turn): (line: string)
    ensures |line| > 0 && line[|line| - 1] == '\n'
  {
    RoleLabel(t.role) + ": " + t.content + "\n"
  }

  /** The rendered line of every turn, oldest first. */
  function TurnLines(history: seq<Turn>): (lines: seq<string>)
    ensures |lines| == |history|
    ensures forall i :: 0 <= i < |history| ==> lines[i] == TurnLine(history[i])
  {
    seq(|history|, i requires 0 <= i < |history| => TurnLine(history[i]))
  }

  /** `history_text`: one line per turn, oldest first; it ends with the latest turn's line. */
  function Transcript(history: seq<Turn>): (r: string)
    ensures history == [] ==> r == ""
    ensures |history| >= 1 ==> var line := TurnLine(history[|history| - 1]);
      |line| <= |r| && r[|r| - |line|..] == line
  {
    Concat(TurnLines(history))
  }

  /** Rendering distributes over concatenation of histories. */
  lemma TranscriptConcat(a: seq<Turn>, b: seq<Turn>)
    ensures Transcript(a + b) == Transcript(a) + Transcript(b)
  {
    assert TurnLines(a + b) == TurnLines(a) + TurnLines(b);
    ConcatAppend(TurnLines(a), TurnLines(b));
  }

  /** A one-turn history renders as that turn's line. */
  lemma TranscriptSingle(t: Turn)
    ensures Transcript([t]) == TurnLine(t)
  {
    var lines := TurnLines([t]);
    assert lines == [TurnLine(t)] && lines[..0] == [];
    assert Concat(lines) == Concat(lines[..0]) + TurnLine(t);
  }

  /** A turn between two histories is rendered between their transcripts. */
  lemma TranscriptSplit(pre: seq<Turn>, t: Turn, post: seq<Turn>)
    ensures Transcript(pre + [t] + post) == Transcript(pre) + TurnLine(t) + Transcript(post)
  {
    TranscriptConcat(pre + [t], post);
    TranscriptConcat(pre, [t]);
    TranscriptSingle(t);
  }

  /** Turn `i` is rendered right after all earlier turns and right before all later ones. */
  lemma TranscriptAt(history: seq<Turn>, i: nat)
    requires i < |history|
    ensures Transcript(history) ==
              Transcript(history[..i]) + TurnLine(history[i]) + Transcript(history[i + 1..])
  {
    assert history == history[..i] + [history[i]] + history[i + 1..];
    TranscriptSplit(history[..i], history[i], history[i + 1..]);
  }

  /** The line the node's loop builds for a message is that message's `TurnLine`. */
  lemma RenderedLine(msg: Turn, role: string)
    requires role == if msg.role == User then "User" else "Assistant"
    ensures role + ": " + msg.content + "\n" == TurnLine(msg)
  {
  }

  /** Appending a turn appends its line to the transcript. */
  lemma TranscriptSnoc(history: seq<Turn>, t: Turn)
    ensures Transcript(history + [t]) == Transcript(history) + TurnLine(t)
  {
    TranscriptConcat(history, [t]);
    TranscriptSingle(t);
  }

  /** A user turn renders as `User: ...`, any other as `Assistant: ...`. */
  lemma TurnLineLabels(t: Turn)
    ensures t.role == User ==> TurnLine(t) == "User: " + t.content + "\n"
    ensures t.role != User ==> TurnLine(t) == "Assistant: " + t.content + "\n"
  {
  }

  /** `groq_memory_node(state)` over the history it loads. */
  function GroqStep(env: Env, history: seq<Turn>, st: FlowState): (r: FlowState)
    ensures r.question == st.question && r.source == Some(Groq)
    ensures r.result == Some(env.groq(ChatPrompt(Transcript(history), st.question)))
  {
    var text := env.groq(ChatPrompt(Transcript(history), st.question));
    st.(result := Some(text), source := Some(Groq))
  }

  /** `groq_memory_node`, loading the history from the store and rendering it in a loop. */
  method GroqMemoryNode(store: HistoryStore, env: Env, st: FlowState) returns (r: FlowState)
    ensures r == GroqStep(env, store.turns, st)
  {
    var history := store.LoadHistory();
    var historyText := "";
    var i := 0;
    while i < |history|
      invariant 0 <= i <= |history|
      invariant historyText == Transcript(history[..i])
    {
      var msg := history[i];
      var role := if msg.role == User then "User" else "Assistant";
      var line := role + ": " + msg.content + "\n";
      RenderedLine(msg, role);
      assert history[..i + 1] == history[..i] + [msg];
      TranscriptSnoc(history[..i], msg);
      historyText := historyText + line;
      i := i + 1;
    }
    assert history[..i] == history;
    var text := env.groq(ChatPrompt(historyText, st.question));
    r := st.(result := Some(text), source := Some(Groq));
  }
}
