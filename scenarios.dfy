/** End-to-end runs of the routing flow on concrete questions and search results. */
module Scenarios {
  import opened Wrappers
  import opened Text
  import opened Memory
  import opened AgentState
  import opened Router
  import opened Nodes
  import opened Graph

  /** "When is the JEE exam?" is sent to web search right after the PDF node, with or without an index. */
  lemma JeeExamGoesToWeb(env: Env, history: seq<Turn>)
    ensures var o := Flow(env, history, "When is the JEE exam?");
      o.visited == [PdfRag, WebSearch] && o.final.source == Some(Web)
  {
    var q := "When is the JEE exam?";
    var low := Lower(q);
    assert low[16..20] == "exam";
    ContainsAt(low, "exam", 16);
    assert "exam" in AcademicKeywords;
    KeywordFlow(env, history, q);
  }

  /** The question of the no-index scenario, lowercased. */
  lemma ChapterQuestionLowered()
    ensures Lower("Summarize chapter 2") == "summarize chapter 2"
  {
  }

  /** The characters of "summarize chapter 2". */
  const ChapterChars: set<char> := {'s', 'u', 'm', 'a', 'r', 'i', 'z', 'e', ' ', 'c', 'h', 'p', 't', '2'}

  /** Its only 's' is the first character. */
  lemma ChapterQuestionAlphabet(low: string)
    requires low == "summarize chapter 2"
    ensures forall i :: 0 <= i < |low| ==> low[i] in ChapterChars
    ensures forall i :: 1 <= i < |low| ==> low[i] in ChapterChars - {'s'}
  {
  }

  /** The first nine keywords do not occur in "summarize chapter 2". */
  lemma ChapterQuestionFirstKeywords(low: string)
    requires low == "summarize chapter 2"
    ensures forall k :: k in AcademicKeywords[..9] ==> !Contains(low, k)
  {
    ChapterQuestionAlphabet(low);
    MissingCharExcludes(low, "exam", 1, 0, ChapterChars);
    MissingCharExcludes(low, "admission", 1, 0, ChapterChars);
    MissingCharExcludes(low, "syllabus", 1, 0, ChapterChars);
    MissingCharExcludes(low, "result", 4, 0, ChapterChars);
    MissingCharExcludes(low, "neet", 0, 0, ChapterChars);
    MissingCharExcludes(low, "ssc", 1, 1, ChapterChars - {'s'});
    MissingCharExcludes(low, "jee", 0, 0, ChapterChars);
    MissingCharExcludes(low, "cbse", 1, 0, ChapterChars);
    MissingCharExcludes(low, "education", 1, 0, ChapterChars);
  }

  /** Keywords ten to thirteen do not occur in "summarize chapter 2". */
  lemma ChapterQuestionMiddleKeywords(low: string)
    requires low == "summarize chapter 2"
    ensures forall k :: k in AcademicKeywords[9..13] ==> !Contains(low, k)
  {
    ChapterQuestionAlphabet(low);
    MissingCharExcludes(low, "science", 4, 0, ChapterChars);
    MissingCharExcludes(low, "technology", 5, 0, ChapterChars);
    MissingCharExcludes(low, "research", 2, 1, ChapterChars - {'s'});
    MissingCharExcludes(low, "study", 3, 0, ChapterChars);
  }

  /** The last five keywords do not occur in "summarize chapter 2". */
  lemma ChapterQuestionLastKeywords(low: string)
    requires low == "summarize chapter 2"
    ensures forall k :: k in AcademicKeywords[13..] ==> !Contains(low, k)
  {
    ChapterQuestionAlphabet(low);
    MissingCharExcludes(low, "latest", 0, 0, ChapterChars);
    MissingCharExcludes(low, "update", 2, 0, ChapterChars);
    MissingCharExcludes(low, "current affairs", 9, 0, ChapterChars);
    MissingCharExcludes(low, "exam date", 1, 0, ChapterChars);
    MissingCharExcludes(low, "admit card", 1, 0, ChapterChars);
  }

  /** No keyword of the list occurs in "Summarize chapter 2". */
  lemma ChapterQuestionHasNoKeyword()
    ensures !MentionsAcademicKeyword("Summarize chapter 2")
  {
    ChapterQuestionLowered();
    var low := Lower("Summarize chapter 2");
    ChapterQuestionFirstKeywords(low);
    ChapterQuestionMiddleKeywords(low);
    ChapterQuestionLastKeywords(low);
    assert AcademicKeywords == AcademicKeywords[..9] + AcademicKeywords[9..13] + AcademicKeywords[13..];
  }

  /**
   * With no index, "Summarize chapter 2" is answered by the chat model:
   * the labels are `no_pdf, groq`, followed by `web` only when that answer
   * is blank or unsure.
   */
  lemma ChapterQuestionWithoutIndex(env: Env, history: seq<Turn>)
    requires env.retriever.None?
    ensures var o := Flow(env, history, "Summarize chapter 2");
      && (o.labels == [NoPdf, Groq] || o.labels == [NoPdf, Groq, Web])
      && (!Unanswered(AfterChat(env, history, "Summarize chapter 2").result, ChatUnsure) ==>
            o.final.source == Some(Groq))
  {
    ChapterQuestionHasNoKeyword();
    NoIndexFlow(env, history, "Summarize chapter 2");
    FlowShape(env, history, "Summarize chapter 2");
  }

  /** A hit with an empty snippet is dropped; only the "B" line reaches the summary prompt. */
  lemma EmptySnippetIsDropped()
    ensures var hits := [SearchHit(Some("A"), None, Some("")), SearchHit(Some("B"), None, Some("x"))];
      SnippetLines(hits) == ["B: x"] && Join(Separator, SnippetLines(hits)) == "B: x"
  {
    var a := SearchHit(Some("A"), None, Some(""));
    var b := SearchHit(Some("B"), None, Some("x"));
    assert HitText(a) == "" && HitText(b) == "x";
    assert HitLine(b) == "B: x";
    SnippetLinesConcat([a], [b]);
    assert [a, b] == [a] + [b];
    SnippetLinesSingle(a);
    SnippetLinesSingle(b);
  }

  /**
   * A chat answer spelled with the Kelvin sign (U+212A) in place of `K`: the
   * ASCII-only lowercasing leaves it alone, so the "i don't know" test fails
   * and the flow ends after `groq`. Python lowercases that sign to `k`, so
   * the source routes this answer to `web_search` instead.
   */
  lemma KelvinSignAnswerEnds(question: string)
    requires !MentionsAcademicKeyword(question)
    ensures RouteFor(FlowState(question, Some("I don't \U{212A}now"), Some(Groq))) == End
  {
    var low := Lower("I don't \U{212A}now");
    var alphabet := {'i', ' ', 'd', 'o', 'n', '\'', 't', '\U{212A}', 'w'};
    assert low == "i don't \U{212A}now";
    assert forall i :: 0 <= i < |low| ==> low[i] in alphabet;
    MissingCharExcludes(low, ChatUnsure, 8, 0, alphabet);
  }
}
