/**
 * The add-question and edit-question dialogs: parsing the comma-separated
 * tag field, the record each dialog submits, and how the edit dialog fills
 * its fields from a stored question.
 *
 * The form's own schema check is the question insert schema; here it is
 * the one check a form can fail, that the chosen type names a question
 * type.
 */
module QuestionForms {
  import opened Wrappers
  import opened Seqs
  import opened Text
  import opened Schema
  import opened JsonValues

  // ---------------------------------------------------------------- tags

  function TrimAll(parts: seq<string>): (r: seq<string>)
    ensures |r| == |parts| && forall i :: 0 <= i < |parts| ==> r[i] == Trim(parts[i])
  {
    seq(|parts|, i requires 0 <= i < |parts| => Trim(parts[i]))
  }

  predicate IsNonEmpty(t: string) { |t| > 0 }

  /** A tag as parsing produces it: non-empty, without commas, trimmed. */
  predicate IsWellFormedTag(t: string) {
    t != "" && ',' !in t && IsTrimmed(t)
  }

  /** `tagsInput.split(",").map(t => t.trim()).filter(t => t.length > 0)` */
  function ParseTags(tagsInput: string): (tags: seq<string>)
    ensures forall t :: t in tags ==> IsWellFormedTag(t)
  {
    var parts := Split(tagsInput, ',');
    var trimmed := TrimAll(parts);
    ParsedTagsWellFormed(parts);
    Filter(trimmed, IsNonEmpty)
  }

  /** Trimming parts without a comma and dropping the empty ones leaves well-formed tags. */
  lemma ParsedTagsWellFormed(parts: seq<string>)
    requires forall i :: 0 <= i < |parts| ==> ',' !in parts[i]
    ensures forall t :: t in Filter(TrimAll(parts), IsNonEmpty) ==> IsWellFormedTag(t)
  {
    var trimmed := TrimAll(parts);
    forall t | t in Filter(trimmed, IsNonEmpty)
      ensures IsWellFormedTag(t)
    {
      var i :| 0 <= i < |trimmed| && trimmed[i] == t;
      TrimKeepsOut(parts[i], ',');
    }
  }

  /** Trimming adds no character. */
  lemma TrimKeepsOut(s: string, c: char)
    requires c !in s
    ensures c !in Trim(s)
  {
    var i, j :| 0 <= i <= j <= |s| && Trim(s) == s[i..j] && AllWhitespace(s[..i]) && AllWhitespace(s[j..]);
    forall k | 0 <= k < j - i
      ensures Trim(s)[k] != c
    {
      assert Trim(s)[k] == s[i + k];
    }
  }

  /** How the edit dialog shows stored tags: joined with ", ". */
  function ShowTags(tags: Option<seq<string>>): string {
    if tags.Some? then Join(tags.value, ", ") else ""
  }

  lemma {:induction false} SplitJoined(tags: seq<string>)
    requires |tags| >= 1
    requires forall i :: 0 <= i < |tags| ==> ',' !in tags[i]
    ensures Split(Join(tags, ", "), ',') == [tags[0]] + seq(|tags| - 1, i requires 0 <= i < |tags| - 1 => " " + tags[i + 1])
    decreases |tags|
  {
    if |tags| > 1 {
      var rest := Join(tags[1..], ", ");
      assert Join(tags, ", ") == tags[0] + [','] + (" " + rest);
      SplitAtSeparator(tags[0], ',', " " + rest);
      SplitJoined(tags[1..]);
      var parts := Split(rest, ',');
      assert (" " + rest)[1..] == rest;
      assert Split(" " + rest, ',') == [" " + parts[0]] + parts[1..];
    } else {
      SplitWithoutSeparator(tags[0], ',');
    }
  }

  /** Trimming the parts of joined well-formed tags gives the tags. */
  lemma TrimmedJoin(tags: seq<string>)
    requires |tags| >= 1
    requires forall i :: 0 <= i < |tags| ==> IsWellFormedTag(tags[i])
    ensures TrimAll(Split(Join(tags, ", "), ',')) == tags
  {
    PartsOfJoin(tags);
    TrimParts(tags, Split(Join(tags, ", "), ','));
  }

  /** The parts of joined tags, one by one: the first tag, then each later one behind a space. */
  lemma PartsOfJoin(tags: seq<string>)
    requires |tags| >= 1
    requires forall i :: 0 <= i < |tags| ==> ',' !in tags[i]
    ensures var parts := Split(Join(tags, ", "), ',');
      |parts| == |tags| && parts[0] == tags[0]
      && forall i :: 1 <= i < |tags| ==> parts[i] == " " + tags[i]
  {
    SplitJoined(tags);
    var parts := Split(Join(tags, ", "), ',');
    var shape := [tags[0]] + seq(|tags| - 1, i requires 0 <= i < |tags| - 1 => " " + tags[i + 1]);
    assert parts == shape;
    forall i | 1 <= i < |tags| ensures parts[i] == " " + tags[i] {
      assert shape[i] == " " + tags[i];
    }
  }

  lemma TrimParts(tags: seq<string>, parts: seq<string>)
    requires |tags| == |parts| >= 1
    requires forall i :: 0 <= i < |tags| ==> IsWellFormedTag(tags[i])
    requires parts[0] == tags[0]
    requires forall i :: 1 <= i < |tags| ==> parts[i] == " " + tags[i]
    ensures TrimAll(parts) == tags
  {
    var trimmed := TrimAll(parts);
    forall i | 0 <= i < |tags| ensures trimmed[i] == tags[i] {
      if i > 0 {
        TrimSpaced(tags[i]);
      }
    }
  }

  /** A well-formed tag behind the space of `", "` trims back to itself. */
  lemma TrimSpaced(t: string)
    requires IsWellFormedTag(t)
    ensures Trim(" " + t) == t
  {
    TrimDropsLeadingWhitespace(' ', t);
  }

  /**
   * Joining well-formed tags and parsing the result gives them back, so an
   * edit that leaves the tag field alone keeps the tags.
   */
  lemma JoinThenParse(tags: seq<string>)
    requires forall i :: 0 <= i < |tags| ==> IsWellFormedTag(tags[i])
    ensures ParseTags(Join(tags, ", ")) == tags
  {
    if tags == [] {
      EmptyInputHasNoTags();
    } else {
      TrimmedJoin(tags);
      KeepsNonEmpty(tags);
      ParseTagsSteps(Join(tags, ", "));
    }
  }

  /** An empty tag field parses to no tags. */
  lemma EmptyInputHasNoTags()
    ensures ParseTags("") == []
  {
    assert Split("", ',') == [""];
    assert Trim("") == "";
    assert TrimAll([""]) == [""];
    assert [""][..0] == [];
    assert Filter([""], IsNonEmpty) == [];
    ParseTagsSteps("");
  }

  lemma KeepsNonEmpty(tags: seq<string>)
    requires forall i :: 0 <= i < |tags| ==> IsWellFormedTag(tags[i])
    ensures Filter(tags, IsNonEmpty) == tags
  {
    FilterKeepsAll(tags, IsNonEmpty);
  }

  lemma ParseTagsSteps(s: string)
    ensures ParseTags(s) == Filter(TrimAll(Split(s, ',')), IsNonEmpty)
  {
  }

  /** `tags.length > 0 ? tags : undefined` */
  function TagsOrUndefined(tags: seq<string>): Option<seq<string>> {
    if tags == [] then None else Some(tags)
  }

  // ---------------------------------------------------------------- the dialogs

  /** The dialog's fields: the question, the answer, the type chosen and the favourite box. */
  datatype QuestionForm = QuestionForm(questionText: string, answerText: string, questionType: string, isFavorite: bool)

  /** The types the dialogs offer. */
  const QuestionTypeOptions: seq<string> := ["behavioral", "technical", "system_design", "company_culture", "experience"]

  /** A new question starts behavioural and not a favourite. */
  const AddQuestionDefaults := QuestionForm("", "", "behavioral", false)

  /**
   * `handleFormSubmit` of the add dialog: nothing when the schema rejects
   * the type; otherwise the fields as typed, with the parsed tags or
   * none.
   */
  function AddQuestionSubmission(form: QuestionForm, tagsInput: string): (r: Option<InsertQuestion>)
    ensures r.Some? <==> ParseQuestionType(form.questionType).Some?
    ensures r.Some? ==> QuestionTypeName(r.value.questionType) == form.questionType
    ensures r.Some? ==>
      r.value.questionText == form.questionText && r.value.answerText == Some(form.answerText)
      && r.value.isFavorite == Some(Some(form.isFavorite))
    ensures r.Some? ==> (r.value.tags.None? <==> ParseTags(tagsInput) == [])
    ensures r.Some? && r.value.tags.Some? ==> r.value.tags.value == ParseTags(tagsInput)
  {
    match ParseQuestionType(form.questionType)
    case None => None
    case Some(t) =>
      Some(InsertQuestion(form.questionText, Some(form.answerText), t, Some(Some(form.isFavorite)),
                          TagsOrUndefined(ParseTags(tagsInput))))
  }

  /** The edit dialog's fields for a stored question, and its tag field. */
  function PopulateQuestionForm(q: Question): (QuestionForm, string) {
    (QuestionForm(q.questionText, q.answerText.GetOr(""), QuestionTypeName(q.questionType), q.isFavorite.GetOr(false)),
     ShowTags(q.tags))
  }

  /** The update record for a form and its parsed tags. */
  function EditQuestionBody(form: QuestionForm, tags: seq<string>): (body: Body)
    ensures body.Keys <= {"questionText", "questionType", "answerText", "isFavorite", "tags"}
    ensures "questionText" in body && body["questionText"] == JString(form.questionText)
    ensures "questionType" in body && body["questionType"] == JString(form.questionType)
    ensures "isFavorite" in body && body["isFavorite"] == JBool(form.isFavorite)
    ensures "answerText" in body <==> form.answerText != ""
    ensures "answerText" in body ==> body["answerText"] == JString(form.answerText)
    ensures "tags" in body <==> tags != []
    ensures "tags" in body ==> body["tags"] == JArray(seq(|tags|, i requires 0 <= i < |tags| => JString(tags[i])))
  {
    var answer: Option<Json> := if form.answerText != "" then Some(JString(form.answerText)) else None;
    var tagList: Option<Json> :=
      if tags != [] then Some(JArray(seq(|tags|, i requires 0 <= i < |tags| => JString(tags[i])))) else None;
    var fixed := map["questionText" := JString(form.questionText), "questionType" := JString(form.questionType),
                     "isFavorite" := JBool(form.isFavorite)];
    Put(Put(fixed, "answerText", answer), "tags", tagList)
  }

  /**
   * `handleFormSubmit` of the edit dialog: nothing without a question or
   * when the schema rejects the type; otherwise exactly the five fields,
   * with an empty answer and an empty tag list left out.
   */
  function EditQuestionUpdate(question: Option<Question>, form: QuestionForm, tagsInput: string): (r: Option<Body>)
    ensures r.Some? <==> question.Some? && ParseQuestionType(form.questionType).Some?
    ensures r.Some? ==> r.value == EditQuestionBody(form, ParseTags(tagsInput))
  {
    if question.None? || ParseQuestionType(form.questionType).None? then None
    else Some(EditQuestionBody(form, ParseTags(tagsInput)))
  }

  // ---------------------------------------------------------------- the offered types

  /** One of the offered types is no question type: a question of that type cannot be added. */
  lemma ExperienceOptionIsRejected(form: QuestionForm, tagsInput: string)
    ensures "experience" in QuestionTypeOptions
    ensures form.questionType == "experience" ==> AddQuestionSubmission(form, tagsInput).None?
  {
    assert QuestionTypeOptions[4] == "experience";
  }

  /** The options the enumeration allows: one per question type. */
  const QuestionTypeOptionsCorrected: seq<string> := ["behavioral", "technical", "system_design", "company_culture"]

  /** Every corrected option can be submitted, and every question type is offered. */
  lemma EveryOfferedTypeIsAccepted(form: QuestionForm, tagsInput: string)
    ensures form.questionType in QuestionTypeOptionsCorrected ==> AddQuestionSubmission(form, tagsInput).Some?
    ensures forall t :: QuestionTypeName(t) in QuestionTypeOptionsCorrected
  {
    forall t ensures QuestionTypeName(t) in QuestionTypeOptionsCorrected {
      match t
      case BehavioralQuestion => assert QuestionTypeOptionsCorrected[0] == QuestionTypeName(t);
      case TechnicalQuestion => assert QuestionTypeOptionsCorrected[1] == QuestionTypeName(t);
      case SystemDesignQuestion => assert QuestionTypeOptionsCorrected[2] == QuestionTypeName(t);
      case CompanyCulture => assert QuestionTypeOptionsCorrected[3] == QuestionTypeName(t);
    }
  }
}
