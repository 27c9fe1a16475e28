/**
 * The LangGraph wiring of `core/agent.py` and `run_agent`: `pdf_rag` is the
 * entry point, `pdf_rag` and `groq` continue where `router` says, and
 * `web_search` always ends the flow.
 */
module Graph {
  import opened Wrappers
  import opened Text
  import opened Memory
  import opened AgentState
  import opened Router
  import opened Nodes

  /** The graph's three nodes. */
  datatype Node = PdfRag | GroqChat | WebSearch

  /** Running one node on the state (the chat node also reads the history). */
  function Apply(env: Env, history: seq<Turn>, node: Node, st: FlowState): (r: FlowState)
    ensures r.question == st.question && r.source.Some?
    ensures node == PdfRag ==> r.source.value in {NoPdf, NoPdfMatch, Pdf}
    ensures node == GroqChat ==> r.source == Some(Groq)
    ensures node == WebSearch ==> r.source == Some(Web)
  {
    match node
    case PdfRag => PdfRagStep(env, st)
    case GroqChat => GroqStep(env, history, st)
    case WebSearch => WebSearchStep(env, st)
  }

  /**
   * The edges leaving a node after it ran: `router` decides after `pdf_rag`
   * and `groq`; `web_search` goes to END.
   */
  function Next(node: Node, st: FlowState): (next: Option<Node>)
    requires st.source.Some?
    ensures node == WebSearch ==> next.None?
    ensures next != Some(PdfRag)
    ensures st.source.value in {Groq, Web} ==> next != Some(GroqChat)
  {
    if node == WebSearch then None
    else
      match RouteFor(st)
      case ToWebSearch => Some(WebSearch)
      case ToGroq => Some(GroqChat)
      case End => None
  }

  /** Nodes that may still run: every edge strictly lowers this rank. */
  function Rank(cur: Option<Node>): nat
  {
    match cur
    case None => 0
    case Some(PdfRag) => 3
    case Some(GroqChat) => 2
    case Some(WebSearch) => 1
  }

  /** What a run of the graph produces: the final state, the nodes run and the label each wrote. */
  datatype Outcome = Outcome(final: FlowState, visited: seq<Node>, labels: seq<Source>)

  /** The rest of a run that is about to execute `cur` (or has ended, when `cur` is `None`). */
  function Resume(env: Env, history: seq<Turn>, cur: Option<Node>, st: FlowState): (o: Outcome)
    ensures |o.visited| == |o.labels| <= Rank(cur)
    ensures cur.None? ==> o == Outcome(st, [], [])
    ensures cur.Some? ==> |o.visited| >= 1 && o.visited[0] == cur.value && o.final.source.Some?
    decreases Rank(cur)
  {
    match cur
    case None => Outcome(st, [], [])
    case Some(node) =>
      var st' := Apply(env, history, node, st);
      var rest := Resume(env, history, Next(node, st'), st');
      Outcome(rest.final, [node] + rest.visited, [st'.source.value] + rest.labels)
  }

  /** `flow.invoke({"question": question})`. */
  function Flow(env: Env, history: seq<Turn>, question: string): (o: Outcome)
    ensures 1 <= |o.visited| == |o.labels| <= 3 && o.visited[0] == PdfRag
  {
    Resume(env, history, Some(PdfRag), Initial(question))
  }

  /** The state after the PDF node. */
  function AfterPdf(env: Env, question: string): FlowState
  {
    PdfRagStep(env, Initial(question))
  }

  /** The state after the chat node, when it runs second. */
  function AfterChat(env: Env, history: seq<Turn>, question: string): FlowState
  {
    GroqStep(env, history, AfterPdf(env, question))
  }

  /** The PDF attempt gave the router reason to fall back: no index, no match, or a blank or "couldn't find" answer. */
  predicate PdfFallsBack(st: FlowState)
  {
    st.source != Some(Pdf) || Unanswered(st.result, PdfNotFound)
  }

  /** Once `web_search` is next, it runs and the flow ends. */
  lemma ResumeAtWeb(env: Env, history: seq<Turn>, st: FlowState)
    ensures Resume(env, history, Some(WebSearch), st) ==
              Outcome(WebSearchStep(env, st), [WebSearch], [Web])
  {
  }

  /** Once `groq` is next, it runs and is followed by `web_search` or by the end. */
  lemma ResumeAtChat(env: Env, history: seq<Turn>, st: FlowState)
    ensures var s2 := GroqStep(env, history, st);
      Resume(env, history, Some(GroqChat), st) ==
        if Next(GroqChat, s2) == Some(WebSearch)
        then Outcome(WebSearchStep(env, s2), [GroqChat, WebSearch], [Groq, Web])
        else Outcome(s2, [GroqChat], [Groq])
  {
  }

  /** The whole run in closed form, one case per way the router can decide. */
  lemma FlowCases(env: Env, history: seq<Turn>, question: string)
    ensures var s1 := AfterPdf(env, question);
      var s2 := AfterChat(env, history, question);
      Flow(env, history, question) ==
        match Next(PdfRag, s1)
        case None => Outcome(s1, [PdfRag], [s1.source.value])
        case Some(WebSearch) => Outcome(WebSearchStep(env, s1), [PdfRag, WebSearch], [s1.source.value, Web])
        case Some(_) =>
          if Next(GroqChat, s2) == Some(WebSearch)
          then Outcome(WebSearchStep(env, s2), [PdfRag, GroqChat, WebSearch], [s1.source.value, Groq, Web])
          else Outcome(s2, [PdfRag, GroqChat], [s1.source.value, Groq])
  {
    var s1 := AfterPdf(env, question);
    assert Apply(env, history, PdfRag, Initial(question)) == s1;
    match Next(PdfRag, s1) {
      case None =>
      case Some(WebSearch) => ResumeAtWeb(env, history, s1);
      case Some(_) => ResumeAtChat(env, history, s1);
    }
  }

  /**
   * Every run starts at `pdf_rag`, runs each node at most once, at most three
   * in all, and `web_search` only last; the final state is labelled by the
   * last node, keeps the question and always carries a result.
   */
  lemma FlowShape(env: Env, history: seq<Turn>, question: string)
    ensures var o := Flow(env, history, question);
      && o.visited in {[PdfRag], [PdfRag, GroqChat], [PdfRag, WebSearch], [PdfRag, GroqChat, WebSearch]}
      && |o.labels| == |o.visited|
      && o.labels[0] in {NoPdf, NoPdfMatch, Pdf}
      && (forall i :: 1 <= i < |o.visited| ==>
            o.labels[i] == (if o.visited[i] == GroqChat then Groq else Web))
      && o.final.source == Some(o.labels[|o.labels| - 1])
      && o.final.source.value in {Pdf, Groq, Web}
      && o.final.question == question
      && o.final.result.Some?
  {
    FlowCases(env, history, question);
    var s1 := AfterPdf(env, question);
    if Next(PdfRag, s1) == None {
      assert RouteFor(s1) == End;
    }
  }

  /** A keyword question goes from `pdf_rag` straight to `web_search` and ends there, whatever the PDF node found. */
  lemma KeywordFlow(env: Env, history: seq<Turn>, question: string)
    requires MentionsAcademicKeyword(question)
    ensures var o := Flow(env, history, question);
      o.visited == [PdfRag, WebSearch] && o.final.source == Some(Web)
    ensures env.retriever.None? ==> Flow(env, history, question).labels == [NoPdf, Web]
  {
  }

  /** The flow stops after `pdf_rag` exactly when there is no keyword and the PDF answer is usable. */
  lemma StopsAfterPdfIff(env: Env, history: seq<Turn>, question: string)
    ensures Flow(env, history, question).visited == [PdfRag] <==>
              !MentionsAcademicKeyword(question) && !PdfFallsBack(AfterPdf(env, question))
  {
    FlowCases(env, history, question);
  }

  /** The chat model is consulted exactly when there is no keyword and the PDF attempt falls back. */
  lemma ChatConsultedIff(env: Env, history: seq<Turn>, question: string)
    ensures GroqChat in Flow(env, history, question).visited <==>
              !MentionsAcademicKeyword(question) && PdfFallsBack(AfterPdf(env, question))
  {
  }

  /**
   * Web search runs exactly when the question has a keyword, or the PDF
   * attempt falls back and the chat answer is blank or unsure.
   */
  lemma WebConsultedIff(env: Env, history: seq<Turn>, question: string)
    ensures WebSearch in Flow(env, history, question).visited <==>
              MentionsAcademicKeyword(question) ||
              (PdfFallsBack(AfterPdf(env, question)) &&
               Unanswered(AfterChat(env, history, question).result, ChatUnsure))
  {
    FlowCases(env, history, question);
    ResumeAtChat(env, history, AfterPdf(env, question));
  }

  /**
   * Without an index and without a keyword, the labels written are
   * `no_pdf, groq` or `no_pdf, groq, web`, the latter exactly when the chat
   * answer is blank or unsure.
   */
  lemma NoIndexFlow(env: Env, history: seq<Turn>, question: string)
    requires env.retriever.None? && !MentionsAcademicKeyword(question)
    ensures var o := Flow(env, history, question);
      && (o.labels == [NoPdf, Groq] || o.labels == [NoPdf, Groq, Web])
      && (o.labels == [NoPdf, Groq, Web] <==> Unanswered(AfterChat(env, history, question).result, ChatUnsure))
  {
  }

  /** Running `node` moves its name and its label from the rest of the run to the part already done. */
  lemma ResumeStep(env: Env, history: seq<Turn>, node: Node, st: FlowState, visited: seq<Node>, labels: seq<Source>)
    ensures var rest := Resume(env, history, Some(node), st);
      var st' := Apply(env, history, node, st);
      var rest' := Resume(env, history, Next(node, st'), st');
      Outcome(rest.final, visited + rest.visited, labels + rest.labels) ==
        Outcome(rest'.final, (visited + [node]) + rest'.visited, (labels + [st'.source.value]) + rest'.labels)
  {
    var st' := Apply(env, history, node, st);
    var rest' := Resume(env, history, Next(node, st'), st');
    assert visited + ([node] + rest'.visited) == (visited + [node]) + rest'.visited;
    assert labels + ([st'.source.value] + rest'.labels) == (labels + [st'.source.value]) + rest'.labels;
  }

  /** The graph run as a loop: execute the current node, then follow its outgoing edge. */
  method RunFlow(store: HistoryStore, env: Env, question: string) returns (o: Outcome)
    ensures o == Flow(env, store.turns, question)
  {
    var st := Initial(question);
    var cur: Option<Node> := Some(PdfRag);
    var visited: seq<Node> := [];
    var labels: seq<Source> := [];
    while cur.Some?
      invariant var rest := Resume(env, store.turns, cur, st);
        Flow(env, store.turns, question) == Outcome(rest.final, visited + rest.visited, labels + rest.labels)
      decreases Rank(cur)
    {
      var node := cur.value;
      ghost var before := st;
      match node {
        case PdfRag => st := PdfRagStep(env, st);
        case GroqChat => st := GroqMemoryNode(store, env, st);
        case WebSearch => st := WebSearchNode(env, st);
      }
      assert st == Apply(env, store.turns, node, before);
      ResumeStep(env, store.turns, node, before, visited, labels);
      visited := visited + [node];
      labels := labels + [st.source.value];
      cur := Next(node, st);
    }
    o := Outcome(st, visited, labels);
    assert visited + [] == visited && labels + [] == labels;
  }

  /**
   * `run_agent(question)`: log the question, run the graph (whose chat node
   * reads the log, question included), log the answer, and return the
   * answer with its source label.
   */
  method RunAgent(store: HistoryStore, env: Env, question: string) returns (answer: string, source: Source)
    modifies store
    ensures store.turns == old(store.turns) + [Turn(User, question), Turn(Assistant, answer)]
    ensures var o := Flow(env, old(store.turns) + [Turn(User, question)], question);
      o.final.result == Some(answer) && o.final.source == Some(source)
  {
    store.AddMessage(User, question);
    var o := RunFlow(store, env, question);
    FlowShape(env, store.turns, question);
    answer := o.final.result.value;
    source := o.final.source.value;
    store.AddMessage(Assistant, answer);
  }

  /** The history the chat node renders inside `run_agent` already ends with the question being answered. */
  lemma ChatTranscriptEndsWithQuestion(history: seq<Turn>, question: string)
    ensures Transcript(history + [Turn(User, question)]) == Transcript(history) + "User: " + question + "\n"
  {
    TranscriptConcat(history, [Turn(User, question)]);
    TranscriptSingle(Turn(User, question));
    TurnLineLabels(Turn(User, question));
  }
}
