/**
 * Taking a quiz: the respondent's selection state, the maximum possible
 * score, and the submission built from the selections.
 */
module QuizTaker {
  import opened QuizTypes

  /** The respondent's answers: question id to the selected option ids, in click order. */
  type Selections = map<int, seq<int>>

  /** The selection of one question; a question without an entry has selected nothing. */
  function Selected(m: Selections, questionId: int): seq<int>
  {
    if questionId in m then m[questionId] else []
  }

  /** No option id occurs twice. */
  predicate NoDuplicates(s: seq<int>)
  {
    forall x | x in s :: multiset(s)[x] <= 1
  }

  // ---------------------------------------------------------------------
  // Selection
  // ---------------------------------------------------------------------

  /** Every occurrence of `x` dropped, the other ids kept in their order. */
  function Without(s: seq<int>, x: int): (r: seq<int>)
    ensures multiset(r) == multiset(s)[x := 0]
  {
    if s == [] then []
    else
      assert s == s[..|s| - 1] + [s[|s| - 1]];
      Without(s[..|s| - 1], x) + (if s[|s| - 1] == x then [] else [s[|s| - 1]])
  }

  /** Dropping an id that is not there changes nothing. */
  lemma {:induction false} WithoutAbsent(s: seq<int>, x: int)
    requires x !in s
    ensures Without(s, x) == s
  {
    if s != [] {
      var p, last := s[..|s| - 1], s[|s| - 1];
      assert s == p + [last];
      assert x !in p && last != x;
      WithoutAbsent(p, x);
    }
  }

  /** The multi-select click: the clicked id flips in or out, every other id keeps its multiplicity. */
  function Toggle(current: seq<int>, optionId: int): (next: seq<int>)
    ensures optionId in next <==> optionId !in current
    ensures forall y :: y != optionId ==> multiset(next)[y] == multiset(current)[y]
    ensures optionId !in current ==> next == current + [optionId]
    ensures NoDuplicates(current) ==> NoDuplicates(next)
  {
    if optionId in current then
      var r := Without(current, optionId);
      assert multiset(r)[optionId] == 0;
      r
    else current + [optionId]
  }

  /** Clicking the same multi-select option twice restores the selected ids, and the exact list when it was not selected. */
  lemma ToggleTwice(s: seq<int>, x: int)
    ensures forall y :: y in Toggle(Toggle(s, x), x) <==> y in s
    ensures x !in s ==> Toggle(Toggle(s, x), x) == s
  {
    if x in s {
      var once := Toggle(s, x);
      assert Toggle(once, x) == once + [x];
      forall y ensures y in once + [x] <==> y in s {
        if y != x {
          assert multiset(once)[y] == multiset(s)[y];
        }
      }
    } else {
      var once := s + [x];
      assert once[..|once| - 1] == s;
      assert Without(once, x) == Without(s, x);
      WithoutAbsent(s, x);
    }
  }

  /** The selection state after clicking option `optionId` of question `questionId`. */
  function HandleSelect(prev: Selections, questionId: int, optionId: int, kind: QuestionType): (next: Selections)
    ensures next.Keys == prev.Keys + {questionId}
    ensures forall q :: q in prev && q != questionId ==> next[q] == prev[q]
    ensures kind == Single ==> next[questionId] == [optionId]
    ensures kind == Multi ==> next[questionId] == Toggle(Selected(prev, questionId), optionId)
  {
    var current := Selected(prev, questionId);
    if kind == Single then prev[questionId := [optionId]]
    else if optionId in current then prev[questionId := Without(current, optionId)]
    else prev[questionId := current + [optionId]]
  }

  /** Two clicks on the same multi-select option leave the selected ids of that question as they were. */
  lemma HandleSelectTwice(m: Selections, questionId: int, optionId: int)
    ensures var twice := HandleSelect(HandleSelect(m, questionId, optionId, Multi), questionId, optionId, Multi);
      && (forall y :: y in Selected(twice, questionId) <==> y in Selected(m, questionId))
      && (optionId !in Selected(m, questionId) ==> Selected(twice, questionId) == Selected(m, questionId))
  {
    ToggleTwice(Selected(m, questionId), optionId);
  }

  /** Question ids are unique within the quiz. */
  predicate DistinctQuestionIds(questions: seq<Question>)
  {
    forall i, j :: 0 <= i < j < |questions| ==> questions[i].id != questions[j].id
  }

  /** Selections the taking page can produce: at most one id for a single question, no repeated id for a multi question. */
  predicate WellFormedSelections(questions: seq<Question>, m: Selections)
  {
    forall k :: 0 <= k < |questions| ==>
      if questions[k].kind == Single then |Selected(m, questions[k].id)| <= 1
      else NoDuplicates(Selected(m, questions[k].id))
  }

  /** Clicking any option of any question, with that question's own type, keeps the selections well formed. */
  lemma HandleSelectKeepsWellFormed(questions: seq<Question>, m: Selections, k: int, optionId: int)
    requires DistinctQuestionIds(questions)
    requires WellFormedSelections(questions, m)
    requires 0 <= k < |questions|
    ensures WellFormedSelections(questions, HandleSelect(m, questions[k].id, optionId, questions[k].kind))
  {
    var next := HandleSelect(m, questions[k].id, optionId, questions[k].kind);
    forall j | 0 <= j < |questions|
      ensures if questions[j].kind == Single then |Selected(next, questions[j].id)| <= 1
              else NoDuplicates(Selected(next, questions[j].id))
    {
      if j != k {
        assert questions[j].id != questions[k].id;
        assert Selected(next, questions[j].id) == Selected(m, questions[j].id);
      }
    }
  }

  // ---------------------------------------------------------------------
  // Maximum score
  // ---------------------------------------------------------------------

  /** The ceiling of a single question: the best option score, floored at 0. */
  function HighestScore(options: seq<Option>): (r: int)
    ensures r >= 0
    ensures forall o :: o in options ==> o.score <= r
    ensures r == 0 || exists o :: o in options && o.score == r
  {
    if options == [] then 0
    else
      var rest := HighestScore(options[1..]);
      assert forall o :: o in options ==> o == options[0] || o in options[1..];
      if options[0].score > rest then options[0].score else rest
  }

  /** The ceiling of a multi question: the sum of the strictly positive option scores. */
  function PositiveSum(options: seq<Option>): (r: int)
    ensures r >= 0
    ensures forall o :: o in options ==> o.score <= r
  {
    if options == [] then 0
    else
      assert forall o :: o in options ==> o == options[0] || o in options[1..];
      (if options[0].score > 0 then options[0].score else 0) + PositiveSum(options[1..])
  }

  /** The ceiling of one question, by its type. */
  function QuestionMax(q: Question): int
  {
    if q.kind == Single then HighestScore(q.options) else PositiveSum(q.options)
  }

  /** The maximum possible score of a quiz: the per-question ceilings summed in question order. */
  function MaxScore(questions: seq<Question>): (r: int)
    ensures r >= 0
  {
    if questions == [] then 0
    else MaxScore(questions[..|questions| - 1]) + QuestionMax(questions[|questions| - 1])
  }

  /** Ceilings of two question lists add up. */
  lemma {:induction false} MaxScoreAppend(a: seq<Question>, b: seq<Question>)
    ensures MaxScore(a + b) == MaxScore(a) + MaxScore(b)
  {
    if b != [] {
      var b' := b[..|b| - 1];
      assert (a + b)[..|a + b| - 1] == a + b';
      MaxScoreAppend(a, b');
    } else {
      assert a + b == a;
    }
  }

  /** The loop that adds up the per-question ceilings. */
  method CalculateMaxScore(quiz: Quiz) returns (max: int)
    ensures max == MaxScore(quiz.questions)
    ensures max >= 0
  {
    var questions := quiz.questions;
    max := 0;
    for i := 0 to |questions|
      invariant max == MaxScore(questions[..i])
    {
      var q := questions[i];
      if q.kind == Single {
        max := max + HighestScore(q.options);
      } else {
        max := max + PositiveSum(q.options);
      }
      assert questions[..i + 1][..i] == questions[..i];
    }
    assert questions[..|questions|] == questions;
  }

  // ---------------------------------------------------------------------
  // Achieved score and the answers of a submission
  // ---------------------------------------------------------------------

  /** The first option carrying the id, if any. */
  function FindOption(options: seq<Option>, optionId: int): (r: Lookup<Option>)
    ensures r.Missing? <==> forall o :: o in options ==> o.id != optionId
    ensures r.Found? ==> r.value in options && r.value.id == optionId
    ensures forall k :: 0 <= k < |options| && options[k].id == optionId && (forall i :: 0 <= i < k ==> options[i].id != optionId) ==>
      r == Found(options[k])
  {
    if options == [] then Missing
    else if options[0].id == optionId then Found(options[0])
    else FindOption(options[1..], optionId)
  }

  /** What one selected id adds: the score of the option it names, 0 for an id no option carries. */
  function OptionScore(options: seq<Option>, optionId: int): (r: int)
    ensures (forall o :: o in options ==> o.id != optionId) ==> r == 0
    ensures r != 0 ==> exists o :: o in options && o.id == optionId && o.score == r
    ensures forall k :: 0 <= k < |options| && options[k].id == optionId && (forall i :: 0 <= i < k ==> options[i].id != optionId) ==>
      r == options[k].score
  {
    match FindOption(options, optionId)
    case Found(o) => o.score
    case Missing => 0
  }

  /** The achieved score of one question: its selected ids scored in selection order. */
  function SelectionScore(options: seq<Option>, ids: seq<int>): int
  {
    if ids == [] then 0
    else SelectionScore(options, ids[..|ids| - 1]) + OptionScore(options, ids[|ids| - 1])
  }

  /** The achieved score of a quiz: every question's selection scored against its own options. */
  function TotalScore(questions: seq<Question>, m: Selections): int
  {
    if questions == [] then 0
    else
      var q := questions[|questions| - 1];
      TotalScore(questions[..|questions| - 1], m) + SelectionScore(q.options, Selected(m, q.id))
  }

  /** One Answer per selected id of one question, in selection order. */
  function AnswersFor(questionId: int, ids: seq<int>): (r: seq<Answer>)
    ensures |r| == |ids|
    ensures forall k :: 0 <= k < |ids| ==> r[k] == Answer(questionId, ids[k])
  {
    if ids == [] then []
    else AnswersFor(questionId, ids[..|ids| - 1]) + [Answer(questionId, ids[|ids| - 1])]
  }

  /** The answers of a submission: question by question, each in selection order. */
  function BuildAnswers(questions: seq<Question>, m: Selections): seq<Answer>
  {
    if questions == [] then []
    else
      var q := questions[|questions| - 1];
      BuildAnswers(questions[..|questions| - 1], m) + AnswersFor(q.id, Selected(m, q.id))
  }

  /** The number of selected ids over the quiz's questions. */
  function SelectionLength(questions: seq<Question>, m: Selections): nat
  {
    if questions == [] then 0
    else
      var q := questions[|questions| - 1];
      SelectionLength(questions[..|questions| - 1], m) + |Selected(m, q.id)|
  }

  /** Achieved scores of two question lists add up, and so do their answers. */
  lemma {:induction false} TotalScoreAppend(a: seq<Question>, b: seq<Question>, m: Selections)
    ensures TotalScore(a + b, m) == TotalScore(a, m) + TotalScore(b, m)
    ensures BuildAnswers(a + b, m) == BuildAnswers(a, m) + BuildAnswers(b, m)
  {
    if b != [] {
      var b' := b[..|b| - 1];
      assert (a + b)[..|a + b| - 1] == a + b';
      TotalScoreAppend(a, b', m);
    } else {
      assert a + b == a;
    }
  }

  /** Only the entries of the quiz's own questions matter; entries under other keys are ignored. */
  lemma {:induction false} TotalScoreReadsOnlyQuizQuestions(questions: seq<Question>, m: Selections, m': Selections)
    requires forall q :: q in questions ==> Selected(m, q.id) == Selected(m', q.id)
    ensures TotalScore(questions, m) == TotalScore(questions, m')
    ensures BuildAnswers(questions, m) == BuildAnswers(questions, m')
  {
    if questions != [] {
      TotalScoreReadsOnlyQuizQuestions(questions[..|questions| - 1], m, m');
      assert questions[|questions| - 1] in questions;
    }
  }

  /** There is exactly one answer per selected id, unknown ids included. */
  lemma {:induction false} BuildAnswersLength(questions: seq<Question>, m: Selections)
    ensures |BuildAnswers(questions, m)| == SelectionLength(questions, m)
  {
    if questions != [] {
      BuildAnswersLength(questions[..|questions| - 1], m);
    }
  }

  /** The answers of one question record exactly its selected ids. */
  lemma AnswersForMembership(questionId: int, ids: seq<int>, a: Answer)
    ensures a in AnswersFor(questionId, ids) <==> a.questionId == questionId && a.optionId in ids
  {
    var ans := AnswersFor(questionId, ids);
    if a in ans {
      var k :| 0 <= k < |ans| && ans[k] == a;
      assert ids[k] == a.optionId;
    }
    if a.questionId == questionId && a.optionId in ids {
      var k :| 0 <= k < |ids| && ids[k] == a.optionId;
      assert ans[k] == a;
    }
  }

  /** `a` names a question of `questions` and one of that question's selected ids. */
  ghost predicate SelectedIn(questions: seq<Question>, m: Selections, a: Answer)
  {
    exists k :: 0 <= k < |questions| && a.questionId == questions[k].id && a.optionId in Selected(m, questions[k].id)
  }

  lemma SelectedInSnoc(questions: seq<Question>, m: Selections, a: Answer)
    requires questions != []
    ensures var n := |questions| - 1;
      SelectedIn(questions, m, a) <==>
        SelectedIn(questions[..n], m, a) || (a.questionId == questions[n].id && a.optionId in Selected(m, questions[n].id))
  {
    var n := |questions| - 1;
    if SelectedIn(questions[..n], m, a) {
      var k :| 0 <= k < n && a.questionId == questions[..n][k].id && a.optionId in Selected(m, questions[..n][k].id);
      assert questions[k] == questions[..n][k];
    }
    if SelectedIn(questions, m, a) {
      var k :| 0 <= k < |questions| && a.questionId == questions[k].id && a.optionId in Selected(m, questions[k].id);
      if k < n {
        assert questions[..n][k] == questions[k];
      }
    }
  }

  /** An answer is recorded exactly when its id is selected for a question of the quiz with that id. */
  lemma {:induction false} BuildAnswersMembership(questions: seq<Question>, m: Selections, a: Answer)
    ensures a in BuildAnswers(questions, m) <==>
      exists k :: 0 <= k < |questions| && a.questionId == questions[k].id && a.optionId in Selected(m, questions[k].id)
  {
    if questions != [] {
      var n := |questions| - 1;
      var q := questions[n];
      assert BuildAnswers(questions, m) == BuildAnswers(questions[..n], m) + AnswersFor(q.id, Selected(m, q.id));
      BuildAnswersMembership(questions[..n], m, a);
      AnswersForMembership(q.id, Selected(m, q.id), a);
      SelectedInSnoc(questions, m, a);
    }
  }

  /** One more question scored and recorded. */
  lemma QuestionStep(questions: seq<Question>, i: int, m: Selections)
    requires 0 <= i < |questions|
    ensures TotalScore(questions[..i + 1], m)
      == TotalScore(questions[..i], m) + SelectionScore(questions[i].options, Selected(m, questions[i].id))
    ensures BuildAnswers(questions[..i + 1], m)
      == BuildAnswers(questions[..i], m) + AnswersFor(questions[i].id, Selected(m, questions[i].id))
  {
    assert questions[..i + 1][..i] == questions[..i];
  }

  /** One more selected id scored and recorded. */
  lemma SelectionStep(options: seq<Option>, questionId: int, ids: seq<int>, j: int)
    requires 0 <= j < |ids|
    ensures SelectionScore(options, ids[..j + 1]) == SelectionScore(options, ids[..j]) + OptionScore(options, ids[j])
    ensures AnswersFor(questionId, ids[..j + 1]) == AnswersFor(questionId, ids[..j]) + [Answer(questionId, ids[j])]
  {
    assert ids[..j + 1][..j] == ids[..j];
  }

  /** The inner loop of submitting: the score of one question's selected ids and their Answers. */
  method ScoreSelection(options: seq<Option>, questionId: int, selectedIds: seq<int>) returns (score: int, recorded: seq<Answer>)
    ensures score == SelectionScore(options, selectedIds)
    ensures recorded == AnswersFor(questionId, selectedIds)
  {
    score, recorded := 0, [];
    for j := 0 to |selectedIds|
      invariant score == SelectionScore(options, selectedIds[..j])
      invariant recorded == AnswersFor(questionId, selectedIds[..j])
    {
      var optId := selectedIds[j];
      var option := FindOption(options, optId);
      if option.Found? {
        score := score + option.value.score;
      }
      recorded := recorded + [Answer(questionId, optId)];
      SelectionStep(options, questionId, selectedIds, j);
    }
    assert selectedIds[..|selectedIds|] == selectedIds;
  }

  /** The outer loop of submitting: the achieved score and one Answer per selected id. */
  method ScoreAnswers(questions: seq<Question>, answers: Selections) returns (totalScore: int, finalAnswers: seq<Answer>)
    ensures totalScore == TotalScore(questions, answers)
    ensures finalAnswers == BuildAnswers(questions, answers)
  {
    totalScore := 0;
    finalAnswers := [];
    for i := 0 to |questions|
      invariant totalScore == TotalScore(questions[..i], answers)
      invariant finalAnswers == BuildAnswers(questions[..i], answers)
    {
      var q := questions[i];
      var score, recorded := ScoreSelection(q.options, q.id, Selected(answers, q.id));
      totalScore := totalScore + score;
      finalAnswers := finalAnswers + recorded;
      QuestionStep(questions, i, answers);
    }
    assert questions[..|questions|] == questions;
  }

  /** Submitting: the submission that is stored, the score shown and the ceiling shown beside it. */
  datatype Submitted = Submitted(submission: Submission, score: int, maxScore: int)

  /** Without a loaded quiz nothing happens; otherwise the scored submission is built. */
  method HandleSubmit(quiz: Lookup<Quiz>, answers: Selections, submittedAt: string) returns (r: Lookup<Submitted>)
    ensures quiz.Missing? ==> r.Missing?
    ensures quiz.Found? ==>
      var questions := quiz.value.questions;
      && r.Found?
      && r.value.submission == Submission(0, quiz.value.id, TotalScore(questions, answers), submittedAt, BuildAnswers(questions, answers))
      && r.value.score == TotalScore(questions, answers)
      && r.value.maxScore == MaxScore(questions)
  {
    if quiz.Missing? {
      return Missing;
    }
    var totalScore, finalAnswers := ScoreAnswers(quiz.value.questions, answers);
    var maxScore := CalculateMaxScore(quiz.value);
    r := Found(Submitted(Submission(0, quiz.value.id, totalScore, submittedAt, finalAnswers), totalScore, maxScore));
  }

  // ---------------------------------------------------------------------
  // Achieved score never exceeds the maximum
  // ---------------------------------------------------------------------

  /** A question without options scores 0 whatever is selected. */
  lemma {:induction false} SelectionScoreNoOptions(ids: seq<int>)
    ensures SelectionScore([], ids) == 0
  {
    if ids != [] {
      SelectionScoreNoOptions(ids[..|ids| - 1]);
    }
  }

  /** A list without repeats stays so without its last id, which occurs nowhere before. */
  lemma NoDuplicatesSnoc(p: seq<int>, x: int)
    requires NoDuplicates(p + [x])
    ensures NoDuplicates(p) && x !in p
  {
    assert multiset(p + [x]) == multiset(p) + multiset{x};
    forall y | y in p ensures multiset(p)[y] <= 1 {
      assert y in p + [x];
    }
    assert x in p + [x];
    assert multiset(p)[x] == 0;
  }

  /** Filtering an id out of a list with one more id at the end. */
  lemma WithoutSnoc(p: seq<int>, x: int, y: int)
    ensures x == y ==> Without(p + [x], y) == Without(p, y)
    ensures x != y ==> Without(p + [x], y) == Without(p, y) + [x]
  {
    assert (p + [x])[..|p|] == p;
    assert Without(p, y) + [] == Without(p, y);
  }

  /** Scoring one more selected id. */
  lemma SelectionScoreSnoc(options: seq<Option>, p: seq<int>, x: int)
    ensures SelectionScore(options, p + [x]) == SelectionScore(options, p) + OptionScore(options, x)
  {
    assert (p + [x])[..|p|] == p;
  }

  /** Splitting off the first option: only a selected id equal to its id can reach it. */
  lemma {:induction false} SelectionScoreSplit(o: Option, rest: seq<Option>, ids: seq<int>)
    requires NoDuplicates(ids)
    ensures SelectionScore([o] + rest, ids) ==
      (if o.id in ids then o.score else 0) + SelectionScore(rest, Without(ids, o.id))
  {
    if ids != [] {
      var p := ids[..|ids| - 1];
      var x := ids[|ids| - 1];
      assert ids == p + [x];
      NoDuplicatesSnoc(p, x);
      SelectionScoreSplit(o, rest, p);
      SelectionScoreSnoc([o] + rest, p, x);
      WithoutSnoc(p, x, o.id);
      assert OptionScore([o] + rest, x) == if x == o.id then o.score else OptionScore(rest, x) by {
        assert ([o] + rest)[1..] == rest;
      }
      if x == o.id {
        assert Without(ids, o.id) == Without(p, o.id);
      } else {
        assert o.id in ids <==> o.id in p;
        SelectionScoreSnoc(rest, Without(p, o.id), x);
      }
    }
  }

  /** Distinct selected ids of a question never score more than its positive option scores together. */
  lemma {:induction false} SelectionScoreWithinPositiveSum(options: seq<Option>, ids: seq<int>)
    requires NoDuplicates(ids)
    ensures SelectionScore(options, ids) <= PositiveSum(options)
  {
    if options == [] {
      SelectionScoreNoOptions(ids);
    } else {
      var o := options[0];
      var rest := options[1..];
      assert options == [o] + rest;
      SelectionScoreSplit(o, rest, ids);
      var w := Without(ids, o.id);
      assert NoDuplicates(w) by {
        forall y ensures multiset(w)[y] <= 1 {
          assert multiset(w)[y] <= multiset(ids)[y];
        }
      }
      SelectionScoreWithinPositiveSum(rest, w);
    }
  }

  /** At most one selected id never scores more than the best option, floored at 0. */
  lemma SelectionScoreWithinHighest(options: seq<Option>, ids: seq<int>)
    requires |ids| <= 1
    ensures SelectionScore(options, ids) <= HighestScore(options)
  {
    if |ids| == 1 {
      assert ids[..0] == [];
    }
  }

  /** With selections the taking page can produce, the achieved score is at most the maximum possible score. */
  lemma {:induction false} ScoreWithinMax(questions: seq<Question>, m: Selections)
    requires WellFormedSelections(questions, m)
    ensures TotalScore(questions, m) <= MaxScore(questions)
  {
    if questions != [] {
      var n := |questions| - 1;
      var prefix := questions[..n];
      var q := questions[n];
      assert WellFormedSelections(prefix, m) by {
        forall k | 0 <= k < |prefix|
          ensures if prefix[k].kind == Single then |Selected(m, prefix[k].id)| <= 1
                  else NoDuplicates(Selected(m, prefix[k].id))
        {
          assert prefix[k] == questions[k];
        }
      }
      ScoreWithinMax(prefix, m);
      if q.kind == Single {
        SelectionScoreWithinHighest(q.options, Selected(m, q.id));
      } else {
        SelectionScoreWithinPositiveSum(q.options, Selected(m, q.id));
      }
    }
  }

  /** A single question with options scoring 10, 5 and 0: picking the first scores 10 of 10, the second 5 of 10. */
  lemma SingleQuestionExample()
    ensures
      var q := Question(1, 1, "", Single, 1, [Option(11, 1, "A", 10), Option(12, 1, "B", 5), Option(13, 1, "C", 0)]);
      && MaxScore([q]) == 10
      && TotalScore([q], map[1 := [11]]) == 10
      && TotalScore([q], map[1 := [12]]) == 5
  {
    var q := Question(1, 1, "", Single, 1, [Option(11, 1, "A", 10), Option(12, 1, "B", 5), Option(13, 1, "C", 0)]);
    assert [q][..0] == [];
    SelectionScoreOne(q.options, 11);
    SelectionScoreOne(q.options, 12);
  }

  /** The options of the multi example: scores 10, 5 and -5. */
  function ExampleMultiOptions(): seq<Option>
  {
    [Option(21, 2, "X", 10), Option(22, 2, "Y", 5), Option(23, 2, "Z", -5)]
  }

  /** Each id of the multi example finds its own option. */
  lemma MultiExampleOptionScores()
    ensures OptionScore(ExampleMultiOptions(), 21) == 10
    ensures OptionScore(ExampleMultiOptions(), 22) == 5
    ensures OptionScore(ExampleMultiOptions(), 23) == -5
  {
    var o := ExampleMultiOptions();
    assert o[0].id == 21 && o[1].id == 22 && o[2].id == 23;
  }

  /** Picking the first two options of the multi example scores 10 + 5. */
  lemma MultiExampleFirstTwo()
    ensures SelectionScore(ExampleMultiOptions(), [21, 22]) == 15
  {
    MultiExampleOptionScores();
    SelectionScoreOne(ExampleMultiOptions(), 21);
    SelectionScoreSnoc(ExampleMultiOptions(), [21], 22);
    assert [21] + [22] == [21, 22];
  }

  /** Picking all three options of the multi example scores 10 + 5 - 5. */
  lemma MultiExampleSelectionScore()
    ensures SelectionScore(ExampleMultiOptions(), [21, 22, 23]) == 10
  {
    MultiExampleOptionScores();
    MultiExampleFirstTwo();
    SelectionScoreSnoc(ExampleMultiOptions(), [21, 22], 23);
    assert [21, 22] + [23] == [21, 22, 23];
  }

  /** The positive scores of the multi example add up to 15. */
  lemma MultiExampleCeiling()
    ensures PositiveSum(ExampleMultiOptions()) == 15
  {
    var o := ExampleMultiOptions();
    assert o[1..][1..] == [o[2]] && [o[2]][1..] == [];
    assert PositiveSum([o[2]]) == 0;
  }

  /** A multi question with options scoring 10, 5 and -5: picking all three scores 10 of 15. */
  lemma MultiQuestionExample()
    ensures
      var q := Question(2, 1, "", Multi, 1, ExampleMultiOptions());
      && MaxScore([q]) == 15
      && TotalScore([q], map[2 := [21, 22, 23]]) == 10
  {
    var q := Question(2, 1, "", Multi, 1, ExampleMultiOptions());
    assert [q][..0] == [];
    MultiExampleCeiling();
    MultiExampleSelectionScore();
  }

  // ---------------------------------------------------------------------
  // The maximum is reachable
  // ---------------------------------------------------------------------

  /** Option ids are unique within a question. */
  predicate DistinctOptionIds(options: seq<Option>)
  {
    forall i, j :: 0 <= i < j < |options| ==> options[i].id != options[j].id
  }

  /** With unique option ids, an option's own id finds that very option. */
  lemma {:induction false} FindOptionDistinct(options: seq<Option>, k: int)
    requires DistinctOptionIds(options) && 0 <= k < |options|
    ensures FindOption(options, options[k].id) == Found(options[k])
  {
    if k > 0 {
      assert options[0].id != options[k].id;
      assert options[1..][k - 1] == options[k];
      FindOptionDistinct(options[1..], k - 1);
    }
  }

  /** The selection reaching a single question's ceiling: the first best option, none when no score is positive. */
  function BestSingle(options: seq<Option>): (ids: seq<int>)
    ensures |ids| <= 1
    ensures forall x :: x in ids ==> exists k :: 0 <= k < |options| && options[k].id == x
  {
    if options == [] then []
    else if options[0].score > HighestScore(options[1..]) then [options[0].id]
    else
      var r := BestSingle(options[1..]);
      assert forall k :: 0 <= k < |options| - 1 ==> options[1..][k] == options[k + 1];
      r
  }

  /** The options after the first keep unique ids. */
  lemma DistinctOptionIdsTail(options: seq<Option>)
    requires DistinctOptionIds(options) && options != []
    ensures DistinctOptionIds(options[1..])
  {
    forall i, j | 0 <= i < j < |options| - 1 ensures options[1..][i].id != options[1..][j].id {
      assert options[1..][i] == options[i + 1] && options[1..][j] == options[j + 1];
    }
  }

  /** A selection of one id scores what that id's option scores. */
  lemma SelectionScoreOne(options: seq<Option>, x: int)
    ensures SelectionScore(options, [x]) == OptionScore(options, x)
  {
    assert [x][..0] == [];
  }

  /** An id other than the first option's is looked up among the remaining options. */
  lemma OptionScoreSkipsFirst(options: seq<Option>, x: int)
    requires options != [] && options[0].id != x
    ensures OptionScore(options, x) == OptionScore(options[1..], x)
  {
  }

  /** The best single pick scores exactly the single question's ceiling. */
  lemma {:induction false} BestSingleReachesHighest(options: seq<Option>)
    requires DistinctOptionIds(options)
    ensures SelectionScore(options, BestSingle(options)) == HighestScore(options)
  {
    if options != [] {
      var rest := options[1..];
      if options[0].score > HighestScore(rest) {
        SelectionScoreOne(options, options[0].id);
      } else {
        DistinctOptionIdsTail(options);
        BestSingleReachesHighest(rest);
        var ids := BestSingle(rest);
        if ids != [] {
          var x := ids[0];
          assert ids == [x] && x in ids;
          var k :| 0 <= k < |rest| && rest[k].id == x;
          assert options[k + 1] == rest[k];
          OptionScoreSkipsFirst(options, x);
          SelectionScoreOne(options, x);
          SelectionScoreOne(rest, x);
        }
      }
    }
  }

  /** The selection reaching a multi question's ceiling: every option with a positive score, in order. */
  function PositiveIds(options: seq<Option>): (ids: seq<int>)
    ensures forall x :: x in ids ==> exists k :: 0 <= k < |options| && options[k].id == x
  {
    if options == [] then []
    else
      var r := PositiveIds(options[1..]);
      assert forall k :: 0 <= k < |options| - 1 ==> options[1..][k] == options[k + 1];
      (if options[0].score > 0 then [options[0].id] else []) + r
  }

  /** With unique option ids, the first option's id is not among the positive ids of the others. */
  lemma FirstIdNotLater(options: seq<Option>)
    requires DistinctOptionIds(options) && options != []
    ensures options[0].id !in PositiveIds(options[1..])
  {
  }

  /** An id not yet in a list without repeats can go in front of it. */
  lemma NoDuplicatesPrepend(h: seq<int>, p: seq<int>)
    requires |h| <= 1 && NoDuplicates(p) && forall x :: x in h ==> x !in p
    ensures NoDuplicates(h + p)
  {
    var ids := h + p;
    assert multiset(ids) == multiset(h) + multiset(p);
    forall x | x in ids ensures multiset(ids)[x] <= 1 {
      if x in h {
        assert h == [x];
        assert multiset(p)[x] == 0;
      } else {
        assert multiset(h)[x] == 0;
      }
    }
  }

  /** Dropping an id distributes over concatenation. */
  lemma {:induction false} WithoutAppend(a: seq<int>, b: seq<int>, y: int)
    ensures Without(a + b, y) == Without(a, y) + Without(b, y)
  {
    if b == [] {
      assert a + b == a;
      assert Without(a, y) + [] == Without(a, y);
    } else {
      var b', last := b[..|b| - 1], b[|b| - 1];
      var tail := if last == y then [] else [last];
      assert b == b' + [last];
      assert a + b == (a + b') + [last];
      WithoutSnoc(a + b', last, y);
      WithoutSnoc(b', last, y);
      assert Without(a + b', y) + tail == Without(a + b, y);
      assert Without(b', y) + tail == Without(b, y);
      WithoutAppend(a, b', y);
      ConcatAssoc(Without(a, y), Without(b', y), tail);
    }
  }

  /** Dropping `y` from a list that holds it at most once, in front, leaves the rest. */
  lemma WithoutFront(h: seq<int>, p: seq<int>, y: int)
    requires h == [] || h == [y]
    requires y !in p
    ensures Without(h + p, y) == p
  {
    WithoutAppend(h, p, y);
    WithoutAbsent(p, y);
    if h != [] {
      assert h[..0] == [];
    }
    assert Without(h, y) == [];
    assert [] + p == p;
  }

  /** Every positive option of a multi question, with unique option ids, is selected once. */
  lemma {:induction false} PositiveIdsNoDuplicates(options: seq<Option>)
    requires DistinctOptionIds(options)
    ensures NoDuplicates(PositiveIds(options))
  {
    if options != [] {
      var rest := options[1..];
      DistinctOptionIdsTail(options);
      PositiveIdsNoDuplicates(rest);
      FirstIdNotLater(options);
      NoDuplicatesPrepend(if options[0].score > 0 then [options[0].id] else [], PositiveIds(rest));
    }
  }

  /** Selecting every positive option of a multi question scores exactly its ceiling. */
  lemma {:induction false} PositiveIdsReachPositiveSum(options: seq<Option>)
    requires DistinctOptionIds(options)
    ensures SelectionScore(options, PositiveIds(options)) == PositiveSum(options)
  {
    if options == [] {
      SelectionScoreNoOptions([]);
    } else {
      var o, rest := options[0], options[1..];
      var h := if o.score > 0 then [o.id] else [];
      var p := PositiveIds(rest);
      var ids := h + p;
      assert options == [o] + rest;
      DistinctOptionIdsTail(options);
      PositiveIdsReachPositiveSum(rest);
      PositiveIdsNoDuplicates(options);
      FirstIdNotLater(options);
      SelectionScoreSplit(o, rest, ids);
      WithoutFront(h, p, o.id);
      assert o.id in ids <==> o.score > 0;
    }
  }

  /** The selection reaching one question's ceiling, by its type. */
  function BestIds(q: Question): seq<int>
  {
    if q.kind == Single then BestSingle(q.options) else PositiveIds(q.options)
  }

  /** Every question of the quiz mapped to the selection reaching its ceiling. */
  function BestSelections(questions: seq<Question>): Selections
  {
    if questions == [] then map[]
    else
      var q := questions[|questions| - 1];
      BestSelections(questions[..|questions| - 1])[q.id := BestIds(q)]
  }

  /** A question's best selection is one the taking page can produce and scores exactly its ceiling. */
  lemma BestIdsReachQuestionMax(q: Question)
    requires DistinctOptionIds(q.options)
    ensures q.kind == Single ==> |BestIds(q)| <= 1
    ensures q.kind == Multi ==> NoDuplicates(BestIds(q))
    ensures SelectionScore(q.options, BestIds(q)) == QuestionMax(q)
  {
    if q.kind == Single {
      BestSingleReachesHighest(q.options);
    } else {
      PositiveIdsNoDuplicates(q.options);
      PositiveIdsReachPositiveSum(q.options);
    }
  }

  /** With unique question ids, every question finds its own best selection in the map. */
  lemma {:induction false} BestSelectionsSelected(questions: seq<Question>, k: int)
    requires DistinctQuestionIds(questions) && 0 <= k < |questions|
    ensures Selected(BestSelections(questions), questions[k].id) == BestIds(questions[k])
  {
    var n := |questions| - 1;
    if k < n {
      var prefix := questions[..n];
      assert prefix[k] == questions[k];
      assert questions[k].id != questions[n].id;
      BestSelectionsSelected(prefix, k);
    }
  }

  /** When every question holds its best selection, the achieved score is the maximum. */
  lemma {:induction false} BestScoresSumToMax(questions: seq<Question>, m: Selections)
    requires forall k :: 0 <= k < |questions| ==> DistinctOptionIds(questions[k].options)
    requires forall k :: 0 <= k < |questions| ==> Selected(m, questions[k].id) == BestIds(questions[k])
    ensures TotalScore(questions, m) == MaxScore(questions)
  {
    if questions != [] {
      var n := |questions| - 1;
      var prefix := questions[..n];
      assert forall k :: 0 <= k < n ==> prefix[k] == questions[k];
      BestScoresSumToMax(prefix, m);
      BestIdsReachQuestionMax(questions[n]);
    }
  }

  /**
   * The maximum score is tight: with unique question ids and unique option ids,
   * a selection the taking page can produce scores exactly the maximum.
   */
  lemma MaxScoreAttainable(questions: seq<Question>)
    requires DistinctQuestionIds(questions)
    requires forall k :: 0 <= k < |questions| ==> DistinctOptionIds(questions[k].options)
    ensures WellFormedSelections(questions, BestSelections(questions))
    ensures TotalScore(questions, BestSelections(questions)) == MaxScore(questions)
  {
    var m := BestSelections(questions);
    forall k | 0 <= k < |questions| ensures Selected(m, questions[k].id) == BestIds(questions[k]) {
      BestSelectionsSelected(questions, k);
    }
    forall k | 0 <= k < |questions|
      ensures if questions[k].kind == Single then |Selected(m, questions[k].id)| <= 1
              else NoDuplicates(Selected(m, questions[k].id))
    {
      BestIdsReachQuestionMax(questions[k]);
    }
    BestScoresSumToMax(questions, m);
  }
}
