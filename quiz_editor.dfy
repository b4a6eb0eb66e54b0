/**
 * Editing a quiz document: the save guard, edits of the question list that
 * build a new list, and edits of one question's options that change the
 * shared question object in place.
 */
module QuizEditor {
  import opened QuizTypes

  // ---------------------------------------------------------------------
  // Save guard
  // ---------------------------------------------------------------------

  /** What pressing Save does: refuse an untitled quiz, or hand the document to storage. */
  datatype SaveOutcome = TitleRequired | Saved(quiz: Quiz)

  /** An empty title never reaches storage; any other title sends the document unchanged. */
  function HandleSave(quiz: Quiz): (r: SaveOutcome)
    ensures r.TitleRequired? <==> |quiz.title| == 0
    ensures r.Saved? ==> r.quiz == quiz
  {
    if quiz.title == "" then TitleRequired else Saved(quiz)
  }

  // ---------------------------------------------------------------------
  // List and field edits on values
  // ---------------------------------------------------------------------

  /** Dropping the element at index `i` by filtering on the index; an index out of range drops nothing. */
  function RemoveAt<T>(s: seq<T>, i: int): (r: seq<T>)
    ensures 0 <= i < |s| ==> |r| == |s| - 1
    ensures 0 <= i < |s| ==> forall k :: 0 <= k < i ==> r[k] == s[k]
    ensures 0 <= i < |s| ==> forall k :: i <= k < |r| ==> r[k] == s[k + 1]
    ensures !(0 <= i < |s|) ==> r == s
  {
    if s == [] then []
    else (if i == 0 then [] else [s[0]]) + RemoveAt(s[1..], i - 1)
  }

  /** Removing an entry from a list of distinct entries leaves them distinct. */
  lemma RemoveAtKeepsDistinct<T>(s: seq<T>, i: int)
    requires forall a, b :: 0 <= a < b < |s| ==> s[a] != s[b]
    ensures var r := RemoveAt(s, i); forall a, b :: 0 <= a < b < |r| ==> r[a] != r[b]
  {
    var r := RemoveAt(s, i);
    forall a, b | 0 <= a < b < |r| ensures r[a] != r[b] {
      if 0 <= i < |s| {
        var a' := if a < i then a else a + 1;
        var b' := if b < i then b else b + 1;
        assert r[a] == s[a'] && r[b] == s[b'];
      }
    }
  }

  /** Removing the last element undoes appending it. */
  lemma RemoveAtUndoesAppend<T>(s: seq<T>, x: T)
    ensures RemoveAt(s + [x], |s|) == s
  {
    var r := RemoveAt(s + [x], |s|);
    assert forall k :: 0 <= k < |s| ==> r[k] == s[k];
  }

  /** Five successive clock readings, in the order adding a question takes them. */
  datatype Clock = Clock(t0: int, t1: int, t2: int, t3: int, t4: int)

  /** The question that Add Question creates for a quiz holding `count` questions. */
  function NewQuestion(quizId: int, count: nat, c: Clock): Question
  {
    Question(c.t0, quizId, "", Single, count + 1,
      [Option(c.t1 + 1, c.t2, "", 0), Option(c.t3 + 2, c.t4, "", 0)])
  }

  /** Add Question: one blank single-choice question appended, with two blank zero-score options. */
  function WithQuestionAdded(quiz: Quiz, c: Clock): (r: Quiz)
    ensures r.(questions := quiz.questions) == quiz
    ensures |r.questions| == |quiz.questions| + 1
    ensures r.questions[..|quiz.questions|] == quiz.questions
    ensures var q := r.questions[|quiz.questions|];
      && q.text == "" && q.kind == Single && q.quizId == quiz.id
      && q.position == |quiz.questions| + 1
      && |q.options| == 2
      && forall o :: o in q.options ==> o.score == 0 && o.text == ""
  {
    quiz.(questions := quiz.questions + [NewQuestion(quiz.id, |quiz.questions|, c)])
  }

  /** A new value for one field of a question. */
  datatype QuestionEdit =
    | SetQuestionId(id: int)
    | SetQuizId(quizId: int)
    | SetText(text: string)
    | SetKind(kind: QuestionType)
    | SetPosition(position: int)
    | SetOptions(options: seq<Option>)

  /** The edited field of `q` holds the edit's value. */
  predicate QuestionEditHolds(q: Question, e: QuestionEdit)
  {
    match e
    case SetQuestionId(v) => q.id == v
    case SetQuizId(v) => q.quizId == v
    case SetText(v) => q.text == v
    case SetKind(v) => q.kind == v
    case SetPosition(v) => q.position == v
    case SetOptions(v) => q.options == v
  }

  /** `q` and `r` agree on every field the edit does not name. */
  predicate QuestionAgreesOutside(q: Question, r: Question, e: QuestionEdit)
  {
    && (e.SetQuestionId? || r.id == q.id)
    && (e.SetQuizId? || r.quizId == q.quizId)
    && (e.SetText? || r.text == q.text)
    && (e.SetKind? || r.kind == q.kind)
    && (e.SetPosition? || r.position == q.position)
    && (e.SetOptions? || r.options == q.options)
  }

  /** The copy of a question with one field replaced. */
  function EditQuestion(q: Question, e: QuestionEdit): (r: Question)
    ensures QuestionEditHolds(r, e)
    ensures QuestionAgreesOutside(q, r, e)
  {
    match e
    case SetQuestionId(v) => q.(id := v)
    case SetQuizId(v) => q.(quizId := v)
    case SetText(v) => q.(text := v)
    case SetKind(v) => q.(kind := v)
    case SetPosition(v) => q.(position := v)
    case SetOptions(v) => q.(options := v)
  }

  /** Update Question: question `i` gets the edit, every other question and the quiz's own fields stay. */
  function WithQuestionUpdated(quiz: Quiz, i: int, e: QuestionEdit): (r: Quiz)
    requires 0 <= i < |quiz.questions|
    ensures r.(questions := quiz.questions) == quiz
    ensures |r.questions| == |quiz.questions|
    ensures QuestionEditHolds(r.questions[i], e) && QuestionAgreesOutside(quiz.questions[i], r.questions[i], e)
    ensures forall k :: 0 <= k < |quiz.questions| && k != i ==> r.questions[k] == quiz.questions[k]
  {
    quiz.(questions := quiz.questions[i := EditQuestion(quiz.questions[i], e)])
  }

  /** Delete Question: question `i` removed, the rest in order; an index out of range removes nothing. */
  function WithQuestionDeleted(quiz: Quiz, i: int): (r: Quiz)
    ensures r.(questions := quiz.questions) == quiz
    ensures 0 <= i < |quiz.questions| ==>
      && |r.questions| == |quiz.questions| - 1
      && (forall k :: 0 <= k < i ==> r.questions[k] == quiz.questions[k])
      && (forall k :: i <= k < |r.questions| ==> r.questions[k] == quiz.questions[k + 1])
    ensures !(0 <= i < |quiz.questions|) ==> r == quiz
  {
    quiz.(questions := RemoveAt(quiz.questions, i))
  }

  /** Deleting the question just added gives back the quiz as it was. */
  lemma DeleteUndoesAdd(quiz: Quiz, c: Clock)
    ensures WithQuestionDeleted(WithQuestionAdded(quiz, c), |quiz.questions|) == quiz
  {
    RemoveAtUndoesAppend(quiz.questions, NewQuestion(quiz.id, |quiz.questions|, c));
  }

  /** A new value for one field of an option. */
  datatype OptionEdit =
    | SetOptionId(id: int)
    | SetOwner(questionId: int)
    | SetOptionText(text: string)
    | SetScore(score: int)

  /** The edited field of `o` holds the edit's value. */
  predicate OptionEditHolds(o: Option, e: OptionEdit)
  {
    match e
    case SetOptionId(v) => o.id == v
    case SetOwner(v) => o.questionId == v
    case SetOptionText(v) => o.text == v
    case SetScore(v) => o.score == v
  }

  /** `o` and `r` agree on every field the edit does not name. */
  predicate OptionAgreesOutside(o: Option, r: Option, e: OptionEdit)
  {
    && (e.SetOptionId? || r.id == o.id)
    && (e.SetOwner? || r.questionId == o.questionId)
    && (e.SetOptionText? || r.text == o.text)
    && (e.SetScore? || r.score == o.score)
  }

  /** The copy of an option with one field replaced. */
  function EditOption(o: Option, e: OptionEdit): (r: Option)
    ensures OptionEditHolds(r, e)
    ensures OptionAgreesOutside(o, r, e)
  {
    match e
    case SetOptionId(v) => o.(id := v)
    case SetOwner(v) => o.(questionId := v)
    case SetOptionText(v) => o.(text := v)
    case SetScore(v) => o.(score := v)
  }

  /** Add Option on a question value: one blank zero-score option owned by the question appended. */
  function WithOptionAdded(q: Question, now: int): (r: Question)
    ensures r.(options := q.options) == q
    ensures |r.options| == |q.options| + 1 && r.options[..|q.options|] == q.options
    ensures var o := r.options[|q.options|]; o.questionId == q.id && o.score == 0 && o.text == ""
  {
    q.(options := q.options + [Option(now, q.id, "", 0)])
  }

  /** Update Option on a question value: option `j` gets the edit, the other options stay. */
  function WithOptionUpdated(q: Question, j: int, e: OptionEdit): (r: Question)
    requires 0 <= j < |q.options|
    ensures r.(options := q.options) == q
    ensures |r.options| == |q.options|
    ensures OptionEditHolds(r.options[j], e) && OptionAgreesOutside(q.options[j], r.options[j], e)
    ensures forall k :: 0 <= k < |q.options| && k != j ==> r.options[k] == q.options[k]
  {
    q.(options := q.options[j := EditOption(q.options[j], e)])
  }

  /** Delete Option on a question value: option `j` removed, the rest in order. */
  function WithOptionDeleted(q: Question, j: int): (r: Question)
    ensures r.(options := q.options) == q
    ensures 0 <= j < |q.options| ==>
      && |r.options| == |q.options| - 1
      && (forall k :: 0 <= k < j ==> r.options[k] == q.options[k])
      && (forall k :: j <= k < |r.options| ==> r.options[k] == q.options[k + 1])
    ensures !(0 <= j < |q.options|) ==> r == q
  {
    q.(options := RemoveAt(q.options, j))
  }

  /** Deleting the option just added gives back the question as it was. */
  lemma DeleteOptionUndoesAdd(q: Question, now: int)
    ensures WithOptionDeleted(WithOptionAdded(q, now), |q.options|) == q
  {
    RemoveAtUndoesAppend(q.options, Option(now, q.id, "", 0));
  }

  // ---------------------------------------------------------------------
  // The editor's state: a quiz whose questions are shared objects
  // ---------------------------------------------------------------------

  /** Removing the same entry from the records and from the values they hold keeps them in step. */
  lemma RemoveAtKeepsValues(records: seq<QuestionRecord>, values: seq<Question>, i: int)
    requires |records| == |values|
    requires forall k :: 0 <= k < |records| ==> records[k].Value() == values[k]
    ensures var r, v := RemoveAt(records, i), RemoveAt(values, i);
      |r| == |v| && forall k :: 0 <= k < |r| ==> r[k].Value() == v[k]
  {
    var r, v := RemoveAt(records, i), RemoveAt(values, i);
    forall k | 0 <= k < |r| ensures r[k].Value() == v[k] {
      if 0 <= i < |records| && i <= k {
        assert r[k] == records[k + 1] && v[k] == values[k + 1];
      }
    }
  }

  /** A question object; the editor's question list holds references to these. */
  class QuestionRecord {
    var id: int
    var quizId: int
    var text: string
    var kind: QuestionType
    var position: int
    var options: seq<Option>

    /** The question this object currently holds. */
    function Value(): Question
      reads this
    {
      Question(id, quizId, text, kind, position, options)
    }

    constructor (q: Question)
      ensures Value() == q
    {
      id, quizId, text, kind, position, options := q.id, q.quizId, q.text, q.kind, q.position, q.options;
    }
  }

  /** The quiz being edited. `doc` is the document it stands for. */
  class Editor {
    var id: int
    var title: string
    var description: string
    var createdAt: string
    var questions: seq<QuestionRecord>
    ghost var doc: Quiz

    /** No question object is listed twice, and the objects hold the document's questions. */
    ghost predicate Valid()
      reads this, questions
    {
      && (forall i, j :: 0 <= i < j < |questions| ==> questions[i] != questions[j])
      && doc.id == id && doc.title == title && doc.description == description && doc.createdAt == createdAt
      && |doc.questions| == |questions|
      && forall k :: 0 <= k < |questions| ==> questions[k].Value() == doc.questions[k]
    }

    /** The blank quiz a new editor starts with. */
    constructor (createdAt: string)
      ensures Valid() && doc == Quiz(0, "", "", createdAt, [])
    {
      id, title, description, this.createdAt, questions := 0, "", "", createdAt, [];
      doc := Quiz(0, "", "", createdAt, []);
    }

    /** A stored quiz replaces the editor's state, with a fresh object per question. */
    method Load(quiz: Quiz)
      modifies this
      ensures Valid() && doc == quiz
      ensures forall k :: 0 <= k < |questions| ==> fresh(questions[k])
    {
      var records: seq<QuestionRecord> := [];
      for k := 0 to |quiz.questions|
        invariant |records| == k
        invariant forall i :: 0 <= i < k ==> fresh(records[i])
        invariant forall i, j :: 0 <= i < j < k ==> records[i] != records[j]
        invariant forall i :: 0 <= i < k ==> records[i].Value() == quiz.questions[i]
      {
        var r := new QuestionRecord(quiz.questions[k]);
        records := records + [r];
      }
      id, title, description, createdAt, questions := quiz.id, quiz.title, quiz.description, quiz.createdAt, records;
      doc := quiz;
    }

    /** Add Question: a new list with one fresh question object at the end. */
    method AddQuestion(c: Clock)
      requires Valid()
      modifies this
      ensures Valid() && doc == WithQuestionAdded(old(doc), c)
      ensures |questions| == |old(questions)| + 1 && questions[..|old(questions)|] == old(questions)
      ensures fresh(questions[|old(questions)|])
    {
      var r := new QuestionRecord(NewQuestion(id, |questions|, c));
      questions := questions + [r];
      doc := WithQuestionAdded(doc, c);
    }

    /** Update Question: a new list whose entry `i` is a fresh edited copy of the old object. */
    method UpdateQuestion(i: int, e: QuestionEdit)
      requires Valid() && 0 <= i < |questions|
      modifies this
      ensures Valid() && doc == WithQuestionUpdated(old(doc), i, e)
      ensures questions == old(questions)[i := questions[i]] && fresh(questions[i])
    {
      var r := new QuestionRecord(EditQuestion(questions[i].Value(), e));
      questions := questions[i := r];
      doc := WithQuestionUpdated(doc, i, e);
    }

    /** Delete Question: a new list without entry `i`; an index out of range changes nothing. */
    method DeleteQuestion(i: int)
      requires Valid()
      modifies this
      ensures Valid() && doc == WithQuestionDeleted(old(doc), i)
      ensures questions == RemoveAt(old(questions), i)
    {
      var rest := RemoveAt(questions, i);
      RemoveAtKeepsDistinct(questions, i);
      ghost var after := WithQuestionDeleted(doc, i);
      RemoveAtKeepsValues(questions, doc.questions, i);
      questions := rest;
      doc := after;
    }

    /** Add Option: the shared question object `i` gets one more option; the list is the same list. */
    method AddOption(i: int, now: int)
      requires Valid() && 0 <= i < |questions|
      modifies this, questions[i]
      ensures Valid() && questions == old(questions)
      ensures doc == old(doc).(questions := old(doc.questions)[i := WithOptionAdded(old(doc.questions[i]), now)])
    {
      var q := questions[i];
      q.options := q.options + [Option(now, q.id, "", 0)];
      doc := doc.(questions := doc.questions[i := q.Value()]);
    }

    /** Update Option: option `j` of the shared question object `i` is replaced in place. */
    method UpdateOption(i: int, j: int, e: OptionEdit)
      requires Valid() && 0 <= i < |questions| && 0 <= j < |questions[i].options|
      modifies this, questions[i]
      ensures Valid() && questions == old(questions)
      ensures doc == old(doc).(questions := old(doc.questions)[i := WithOptionUpdated(old(doc.questions[i]), j, e)])
    {
      var q := questions[i];
      q.options := q.options[j := EditOption(q.options[j], e)];
      doc := doc.(questions := doc.questions[i := q.Value()]);
    }

    /** Delete Option: the shared question object `i` gets a filtered option list. */
    method DeleteOption(i: int, j: int)
      requires Valid() && 0 <= i < |questions|
      modifies this, questions[i]
      ensures Valid() && questions == old(questions)
      ensures doc == old(doc).(questions := old(doc.questions)[i := WithOptionDeleted(old(doc.questions[i]), j)])
    {
      var q := questions[i];
      q.options := RemoveAt(q.options, j);
      doc := doc.(questions := doc.questions[i := q.Value()]);
    }
  }
}
