/**
 * `router` of `core/agent.py`: the pure classifier that picks the graph's next
 * node from the question and the latest `source`/`result`.
 */
module Router {
  import opened Wrappers
  import opened Text
  import opened AgentState

  /** Questions mentioning any of these (as a lowercase substring) always go to web search. */
  const AcademicKeywords: seq<string> := [
    "exam", "admission", "syllabus", "result",
    "neet", "ssc", "jee", "cbse", "education",
    "science", "technology", "research", "study",
    "latest", "update", "current affairs", "exam date", "admit card"
  ]

  /** The phrase the PDF prompt asks the model to use when the PDFs lack the answer. */
  const PdfNotFound: string := "i couldn't find"

  /** The phrase taken as the chat model giving up. */
  const ChatUnsure: string := "i don't know"

  /** The router's three answers: `"web_search"`, `"groq"` and `"end"`. */
  datatype Route = ToWebSearch | ToGroq | End

  /** `any(k in question.lower() for k in academic_keywords)`. */
  predicate MentionsAcademicKeyword(question: string)
    ensures MentionsAcademicKeyword(question) ==> |question| >= 3
  {
    exists k :: k in AcademicKeywords && Contains(Lower(question), k)
  }

  /** Python falsiness of a result: `None` or the empty string. */
  predicate IsBlank(result: Option<string>)
    ensures !IsBlank(result) ==> result.Some? && |result.value| > 0
  {
    result.None? || result.value == ""
  }

  /** `not result or phrase in result.lower()`. */
  predicate Unanswered(result: Option<string>, phrase: string)
    ensures IsBlank(result) ==> Unanswered(result, phrase)
    ensures Unanswered(result, phrase) && !IsBlank(result) ==> |phrase| <= |result.value|
  {
    IsBlank(result) || Contains(Lower(result.value), phrase)
  }

  /** The keyword test ignores case: lowercasing the question first changes nothing. */
  lemma KeywordTestIgnoresCase(question: string)
    ensures MentionsAcademicKeyword(Lower(question)) <==> MentionsAcademicKeyword(question)
  {
    LowerIdempotent(question);
  }

  /** The give-up test ignores case: lowercasing the answer first changes nothing. */
  lemma UnansweredIgnoresCase(answer: string, phrase: string)
    ensures Unanswered(Some(Lower(answer)), phrase) <==> Unanswered(Some(answer), phrase)
  {
    LowerIdempotent(answer);
  }

  /** A lowercase phrase anywhere in a non-empty answer marks it as unanswered, whatever surrounds it. */
  lemma {:induction false} PhraseAnywhereUnanswered(pre: string, phrase: string, post: string)
    requires Lower(phrase) == phrase
    ensures Unanswered(Some(pre + phrase + post), phrase)
  {
    LowerAppend(pre + phrase, post);
    LowerAppend(pre, phrase);
    var low := Lower(pre + phrase + post);
    assert low == Lower(pre) + phrase + Lower(post);
    assert low[|pre|..|pre| + |phrase|] == phrase;
    ContainsAt(low, phrase, |pre|);
  }

  /**
   * `router(state)`. Reading `state["source"]` needs the key, so a state
   * without a source is only routed when the keyword test decides first.
   */
  function RouteFor(st: FlowState): (r: Route)
    requires st.source.Some? || MentionsAcademicKeyword(st.question)
    ensures r == ToWebSearch <==>
              MentionsAcademicKeyword(st.question) || (st.source == Some(Groq) && Unanswered(st.result, ChatUnsure))
    ensures r == ToGroq ==> st.source.value in {NoPdf, NoPdfMatch, Pdf}
    ensures st.source == Some(Web) ==> r != ToGroq
  {
    if MentionsAcademicKeyword(st.question) then ToWebSearch
    else if st.source.value in {NoPdf, NoPdfMatch} then ToGroq
    else if st.source.value == Pdf && Unanswered(st.result, PdfNotFound) then ToGroq
    else if st.source.value == Groq && Unanswered(st.result, ChatUnsure) then ToWebSearch
    else End
  }

  /** Rule 1 wins over everything: a keyword sends any state to web search. */
  lemma KeywordRoutesToWebSearch(st: FlowState)
    requires MentionsAcademicKeyword(st.question)
    ensures RouteFor(st) == ToWebSearch
  {
  }

  /** Rule 2: without a keyword, a missing index or an empty retrieval goes to the chat model. */
  lemma PdfMissRoutesToGroq(st: FlowState)
    requires !MentionsAcademicKeyword(st.question)
    requires st.source == Some(NoPdf) || st.source == Some(NoPdfMatch)
    ensures RouteFor(st) == ToGroq
  {
  }

  /** Rule 3: after a PDF answer, the chat model is consulted exactly when the answer is blank or admits failure; otherwise the flow ends. */
  lemma PdfAnswerRouting(st: FlowState)
    requires !MentionsAcademicKeyword(st.question) && st.source == Some(Pdf)
    ensures RouteFor(st) == ToGroq <==> Unanswered(st.result, PdfNotFound)
    ensures RouteFor(st) != ToGroq ==> RouteFor(st) == End
  {
  }

  /** Rule 4: after a chat answer, web search is consulted exactly when the answer is blank or unsure; otherwise the flow ends. */
  lemma ChatAnswerRouting(st: FlowState)
    requires !MentionsAcademicKeyword(st.question) && st.source == Some(Groq)
    ensures RouteFor(st) == ToWebSearch <==> Unanswered(st.result, ChatUnsure)
    ensures RouteFor(st) != ToWebSearch ==> RouteFor(st) == End
  {
  }

  /** Rule 5: without a keyword, a web answer is final whatever it says. */
  lemma WebAnswerEnds(st: FlowState)
    requires !MentionsAcademicKeyword(st.question) && st.source == Some(Web)
    ensures RouteFor(st) == End
  {
  }

  /** The router never sends a chat or web answer back to the chat model, so no cycle can form. */
  lemma NoRouteBackToGroq(st: FlowState)
    requires st.source == Some(Groq) || st.source == Some(Web)
    ensures RouteFor(st) != ToGroq
  {
  }

  /** Only a question that already mentions "exam" can mention "exam date": that keyword never changes a decision. */
  lemma ExamDateIsSubsumed(question: string)
    requires Contains(Lower(question), "exam date")
    ensures Contains(Lower(question), "exam")
  {
    ContainsInfix(Lower(question), "exam date", 0, 4);
    assert "exam date"[0..4] == "exam";
  }
}
