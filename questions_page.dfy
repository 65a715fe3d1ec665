/**
 * The question bank page's list filter.
 */
module QuestionsPage {
  import opened Wrappers
  import opened Seqs
  import opened Text
  import opened Schema

  /** The search looks at the question text only. */
  predicate MatchesSearch(q: Question, searchTerm: string) {
    ContainsIgnoreCase(q.questionText, searchTerm)
  }

  predicate MatchesType(q: Question, typeFilter: string) {
    typeFilter == "all" || QuestionTypeName(q.questionType) == typeFilter
  }

  function Shown(searchTerm: string, typeFilter: string): Question -> bool {
    (q: Question) => MatchesSearch(q, searchTerm) && MatchesType(q, typeFilter)
  }

  /** `filteredQuestions`: the questions both filters let through, in their original order. */
  function FilteredQuestions(questions: seq<Question>, searchTerm: string, typeFilter: string): (r: seq<Question>)
    ensures forall q :: q in r <==> q in questions && MatchesSearch(q, searchTerm) && MatchesType(q, typeFilter)
    ensures IsSubsequence(r, questions)
  {
    FilterIsSubsequence(questions, Shown(searchTerm, typeFilter));
    Filter(questions, Shown(searchTerm, typeFilter))
  }

  /** With an empty search and "all", every question is shown. */
  lemma NoFilterShowsAll(questions: seq<Question>)
    ensures FilteredQuestions(questions, "", "all") == questions
  {
    forall i | 0 <= i < |questions| ensures Shown("", "all")(questions[i]) {
      EmptyIsContained(questions[i].questionText);
    }
    FilterKeepsAll(questions, Shown("", "all"));
  }

  /** The answer and the tags never decide whether a question is shown. */
  lemma AnswerAndTagsAreNotSearched(q: Question, answerText: Option<string>, tags: Option<seq<string>>,
                                    searchTerm: string, typeFilter: string)
    ensures Shown(searchTerm, typeFilter)(q.(answerText := answerText, tags := tags))
        == Shown(searchTerm, typeFilter)(q)
  {
  }
}
