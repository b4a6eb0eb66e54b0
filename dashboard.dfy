/**
 * The analytics dashboard: the submissions of the selected quiz, their
 * count and average score, and for every option of every question the
 * number and percentage of submissions that selected it.
 *
 * Averages and percentages are exact: Math.round on a ratio is computed
 * by integer arithmetic, rounding halves toward +infinity.
 */
module Dashboard {
  import opened QuizTypes

  // ---------------------------------------------------------------------
  // Rounding
  // ---------------------------------------------------------------------

  /** Math.round(num / den): the nearest integer, halves rounded up. */
  function RoundHalfUp(num: int, den: int): (r: int)
    requires den > 0
    ensures den * (2 * r - 1) <= 2 * num < den * (2 * r + 1)
  {
    var q := (2 * num + den) / (2 * den);
    assert 2 * den * q <= 2 * num + den < 2 * den * q + 2 * den;
    q
  }

  /** A positive factor can be cancelled from a strict inequality. */
  lemma CancelLess(n: int, a: int, b: int)
    requires n > 0 && n * a < n * b
    ensures a < b
  {
  }

  /** A ratio lying between `lo` and `hi` rounds to a value between them. */
  lemma RoundHalfUpBetween(num: int, den: int, lo: int, hi: int)
    requires den > 0
    requires den * lo <= num <= den * hi
    ensures lo <= RoundHalfUp(num, den) <= hi
  {
    var r := RoundHalfUp(num, den);
    assert den * (2 * lo) < den * (2 * r + 1) by {
      assert den * (2 * lo) == 2 * (den * lo);
    }
    CancelLess(den, 2 * lo, 2 * r + 1);
    assert den * (2 * r - 1) < den * (2 * hi + 1) by {
      assert den * (2 * hi + 1) == 2 * (den * hi) + den;
    }
    CancelLess(den, 2 * r - 1, 2 * hi + 1);
  }

  // ---------------------------------------------------------------------
  // Submissions of the selected quiz, count and average
  // ---------------------------------------------------------------------

  /** The submissions answering quiz `quizId`, in their original order. */
  function FilterByQuiz(all: seq<Submission>, quizId: int): (r: seq<Submission>)
    ensures forall s :: s in r <==> s in all && s.quizId == quizId
    ensures |r| <= |all|
    ensures (forall s :: s in all ==> s.quizId == quizId) ==> r == all
  {
    if all == [] then []
    else
      var last := all[|all| - 1];
      assert all == all[..|all| - 1] + [last];
      FilterByQuiz(all[..|all| - 1], quizId) + (if last.quizId == quizId then [last] else [])
  }

  /** Filtering one more submission appends it exactly when it belongs to the quiz. */
  lemma FilterByQuizSnoc(s: seq<Submission>, x: Submission, quizId: int)
    ensures FilterByQuiz(s + [x], quizId) == FilterByQuiz(s, quizId) + (if x.quizId == quizId then [x] else [])
  {
    assert (s + [x])[..|s|] == s;
  }

  /** Filtering keeps the relative order: it distributes over concatenation. */
  lemma {:induction false} FilterByQuizAppend(a: seq<Submission>, b: seq<Submission>, quizId: int)
    ensures FilterByQuiz(a + b, quizId) == FilterByQuiz(a, quizId) + FilterByQuiz(b, quizId)
  {
    if b == [] {
      assert a + b == a;
    } else {
      var b', last := b[..|b| - 1], b[|b| - 1];
      var tail := if last.quizId == quizId then [last] else [];
      assert b == b' + [last];
      assert a + b == (a + b') + [last];
      FilterByQuizSnoc(a + b', last, quizId);
      FilterByQuizSnoc(b', last, quizId);
      FilterByQuizAppend(a, b', quizId);
      ConcatAssoc(FilterByQuiz(a, quizId), FilterByQuiz(b', quizId), tail);
    }
  }

  /** The sum of the total scores. */
  function SumScores(subs: seq<Submission>): int
  {
    if subs == [] then 0
    else SumScores(subs[..|subs| - 1]) + subs[|subs| - 1].totalScore
  }

  /** One more summand adds one more copy. */
  lemma MulSucc(n: int, x: int)
    ensures (n + 1) * x == n * x + x
  {
  }

  /** A sum of scores between `lo` and `hi` lies between `n * lo` and `n * hi`. */
  lemma {:induction false} SumScoresBetween(subs: seq<Submission>, lo: int, hi: int)
    requires forall s :: s in subs ==> lo <= s.totalScore <= hi
    ensures |subs| * lo <= SumScores(subs) <= |subs| * hi
  {
    if subs != [] {
      var p := subs[..|subs| - 1];
      var last := subs[|subs| - 1];
      assert subs == p + [last];
      forall s | s in p ensures lo <= s.totalScore <= hi {
        assert s in subs;
      }
      SumScoresBetween(p, lo, hi);
      assert last in subs;
      MulSucc(|p|, lo);
      MulSucc(|p|, hi);
    }
  }

  /** The average total score in tenths: 0 without submissions, else the mean rounded to one decimal. */
  function AverageTenths(subs: seq<Submission>): (r: int)
    ensures subs == [] ==> r == 0
    ensures subs != [] ==> |subs| * (2 * r - 1) <= 20 * SumScores(subs) < |subs| * (2 * r + 1)
  {
    if subs == [] then 0 else RoundHalfUp(10 * SumScores(subs), |subs|)
  }

  /** The average lies between the lowest and highest possible score. */
  lemma AverageWithinScores(subs: seq<Submission>, lo: int, hi: int)
    requires forall s :: s in subs ==> lo <= s.totalScore <= hi
    requires subs != []
    ensures 10 * lo <= AverageTenths(subs) <= 10 * hi
  {
    var n := |subs|;
    SumScoresBetween(subs, lo, hi);
    assert n * (10 * lo) == 10 * (n * lo);
    assert n * (10 * hi) == 10 * (n * hi);
    RoundHalfUpBetween(10 * SumScores(subs), n, 10 * lo, 10 * hi);
  }

  /** Count and average (in tenths) of the selected quiz's submissions. */
  datatype QuizStats = QuizStats(count: nat, avgTenths: int)

  /** What loading the dashboard data sets: the filtered submissions and their statistics. */
  datatype Loaded = Loaded(submissions: seq<Submission>, stats: QuizStats)

  /** With no quiz selected (null or 0) nothing is loaded; otherwise the quiz's submissions and their statistics. */
  function LoadData(all: seq<Submission>, selectedQuizId: Lookup<int>): (r: Lookup<Loaded>)
    ensures r.Missing? <==> selectedQuizId == Missing || selectedQuizId == Found(0)
    ensures r.Found? ==>
      && (forall s :: s in r.value.submissions <==> s in all && s.quizId == selectedQuizId.value)
      && r.value.submissions == FilterByQuiz(all, selectedQuizId.value)
      && r.value.stats.count == |r.value.submissions|
      && r.value.stats.avgTenths == AverageTenths(r.value.submissions)
  {
    match selectedQuizId
    case Missing => Missing
    case Found(id) =>
      if id == 0 then Missing
      else
        var filtered := FilterByQuiz(all, id);
        Found(Loaded(filtered, QuizStats(|filtered|, AverageTenths(filtered))))
  }

  /** Two submissions scoring 8 and 4: two submissions, average 6.0. */
  lemma TwoSubmissionsAverage()
    ensures
      var all := [Submission(1, 7, 8, "", []), Submission(2, 7, 4, "", []), Submission(3, 9, 100, "", [])];
      var r := LoadData(all, Found(7));
      r.Found? && r.value.stats == QuizStats(2, 60)
  {
    var all := [Submission(1, 7, 8, "", []), Submission(2, 7, 4, "", []), Submission(3, 9, 100, "", [])];
    assert all[..2][..1] == [all[0]];
    assert all[..2] == [all[0], all[1]];
    assert FilterByQuiz(all, 7) == [all[0], all[1]];
    var f := [all[0], all[1]];
    assert f[..1] == [all[0]];
    assert f[..1][..0] == [];
    assert SumScores(f[..1]) == 8;
    assert SumScores(f) == 12;
    assert AverageTenths(f) == RoundHalfUp(120, 2);
    assert RoundHalfUp(120, 2) == 60;
  }

  // ---------------------------------------------------------------------
  // Question analysis
  // ---------------------------------------------------------------------

  /** The first quiz carrying the id, if any. */
  function FindQuizById(quizzes: seq<Quiz>, id: int): (r: Lookup<Quiz>)
    ensures r.Missing? <==> forall q :: q in quizzes ==> q.id != id
    ensures r.Found? ==> r.value in quizzes && r.value.id == id
    ensures forall k :: 0 <= k < |quizzes| && quizzes[k].id == id && (forall i :: 0 <= i < k ==> quizzes[i].id != id) ==>
      r == Found(quizzes[k])
  {
    if quizzes == [] then Missing
    else if quizzes[0].id == id then Found(quizzes[0])
    else FindQuizById(quizzes[1..], id)
  }

  /** `quizzes.find(q => q.id === selectedQuizId)`; a null id matches nothing. */
  function FindQuiz(quizzes: seq<Quiz>, selectedQuizId: Lookup<int>): (r: Lookup<Quiz>)
    ensures selectedQuizId.Missing? ==> r.Missing?
    ensures selectedQuizId.Found? ==> (r.Missing? <==> forall q :: q in quizzes ==> q.id != selectedQuizId.value)
    ensures r.Found? ==> r.value in quizzes && r.value.id == selectedQuizId.value
    ensures selectedQuizId.Found? ==>
      forall k :: 0 <= k < |quizzes| && quizzes[k].id == selectedQuizId.value && (forall i :: 0 <= i < k ==> quizzes[i].id != selectedQuizId.value) ==>
        r == Found(quizzes[k])
  {
    match selectedQuizId
    case Missing => Missing
    case Found(id) => FindQuizById(quizzes, id)
  }

  /** The submission has at least one answer for this question and option. */
  predicate HasSelected(sub: Submission, questionId: int, optionId: int)
  {
    Answer(questionId, optionId) in sub.answers
  }

  /** The number of submissions that selected the option, each counted once. */
  function SelectionCount(subs: seq<Submission>, questionId: int, optionId: int): (count: nat)
    ensures count <= |subs|
    ensures count == 0 <==> forall s :: s in subs ==> !HasSelected(s, questionId, optionId)
    ensures count == |subs| <==> forall s :: s in subs ==> HasSelected(s, questionId, optionId)
  {
    if subs == [] then 0
    else
      var last := subs[|subs| - 1];
      assert forall s :: s in subs <==> s in subs[..|subs| - 1] || s == last by {
        assert subs == subs[..|subs| - 1] + [last];
      }
      SelectionCount(subs[..|subs| - 1], questionId, optionId)
        + (if HasSelected(last, questionId, optionId) then 1 else 0)
  }

  /** The indices of the submissions that selected the option. */
  ghost function SelectingIndices(subs: seq<Submission>, questionId: int, optionId: int): set<int>
  {
    set i | 0 <= i < |subs| && HasSelected(subs[i], questionId, optionId)
  }

  /** The selecting indices of a list grow by the last index exactly when the last submission selected. */
  lemma SelectingIndicesSnoc(subs: seq<Submission>, questionId: int, optionId: int)
    requires subs != []
    ensures var n := |subs| - 1;
      SelectingIndices(subs, questionId, optionId) ==
        SelectingIndices(subs[..n], questionId, optionId)
          + (if HasSelected(subs[n], questionId, optionId) then {n} else {})
  {
    var n := |subs| - 1;
    var p := subs[..n];
    forall i | 0 <= i < n ensures p[i] == subs[i] { }
  }

  /** The count is the number of distinct submissions that selected the option. */
  lemma {:induction false} SelectionCountCountsSubmissions(subs: seq<Submission>, questionId: int, optionId: int)
    ensures SelectionCount(subs, questionId, optionId) == |SelectingIndices(subs, questionId, optionId)|
  {
    if subs == [] {
      assert SelectingIndices(subs, questionId, optionId) == {};
    } else {
      var n := |subs| - 1;
      SelectionCountCountsSubmissions(subs[..n], questionId, optionId);
      SelectingIndicesSnoc(subs, questionId, optionId);
      var before := SelectingIndices(subs[..n], questionId, optionId);
      assert n !in before;
    }
  }

  /** Counts depend only on which answers each submission holds, not on repeats or order. */
  lemma {:induction false} SelectionCountIgnoresRepeats(subs: seq<Submission>, subs': seq<Submission>, questionId: int, optionId: int)
    requires |subs| == |subs'|
    requires forall i :: 0 <= i < |subs| ==> (forall a :: a in subs[i].answers <==> a in subs'[i].answers)
    ensures SelectionCount(subs, questionId, optionId) == SelectionCount(subs', questionId, optionId)
  {
    if subs != [] {
      var n := |subs| - 1;
      var p, p' := subs[..n], subs'[..n];
      forall i | 0 <= i < n ensures forall a :: a in p[i].answers <==> a in p'[i].answers {
        assert p[i] == subs[i] && p'[i] == subs'[i];
      }
      SelectionCountIgnoresRepeats(p, p', questionId, optionId);
      assert HasSelected(subs[n], questionId, optionId) <==> HasSelected(subs'[n], questionId, optionId) by {
        assert Answer(questionId, optionId) in subs[n].answers <==> Answer(questionId, optionId) in subs'[n].answers;
      }
    }
  }

  /** Recording an answer a submission already holds leaves every count unchanged. */
  lemma RepeatedAnswerCountsOnce(subs: seq<Submission>, i: int, a: Answer, questionId: int, optionId: int)
    requires 0 <= i < |subs| && a in subs[i].answers
    ensures
      var repeated := subs[i := subs[i].(answers := subs[i].answers + [a])];
      SelectionCount(repeated, questionId, optionId) == SelectionCount(subs, questionId, optionId)
  {
    var repeated := subs[i := subs[i].(answers := subs[i].answers + [a])];
    SelectionCountIgnoresRepeats(repeated, subs, questionId, optionId);
  }

  /** An option of the analysis: the option itself and its selection count. */
  datatype OptionCount = OptionCount(option: Option, count: nat)

  /** A question of the analysis: the question itself and one count per option. */
  datatype QuestionAnalysis = QuestionAnalysis(question: Question, optionCounts: seq<OptionCount>)

  /** Every option of the question with the number of submissions that selected it. */
  function OptionCounts(q: Question, submissions: seq<Submission>): (r: seq<OptionCount>)
    ensures |r| == |q.options|
    ensures forall j :: 0 <= j < |r| ==>
      && r[j].option == q.options[j]
      && r[j].count == SelectionCount(submissions, q.id, q.options[j].id)
      && r[j].count <= |submissions|
  {
    seq(|q.options|, j requires 0 <= j < |q.options| =>
      OptionCount(q.options[j], SelectionCount(submissions, q.id, q.options[j].id)))
  }

  /** The analysis keeps the shape of the quiz: one entry per question, one count per option, in order. */
  function GetQuestionAnalysis(selectedQuiz: Lookup<Quiz>, submissions: seq<Submission>): (r: seq<QuestionAnalysis>)
    ensures selectedQuiz.Missing? ==> r == []
    ensures selectedQuiz.Found? ==> |r| == |selectedQuiz.value.questions|
    ensures selectedQuiz.Found? ==> forall i :: 0 <= i < |r| ==>
      var q := selectedQuiz.value.questions[i];
      && r[i].question == q
      && |r[i].optionCounts| == |q.options|
      && forall j :: 0 <= j < |q.options| ==>
           && r[i].optionCounts[j].option == q.options[j]
           && r[i].optionCounts[j].count == SelectionCount(submissions, q.id, q.options[j].id)
  {
    match selectedQuiz
    case Missing => []
    case Found(quiz) =>
      seq(|quiz.questions|, i requires 0 <= i < |quiz.questions| =>
        QuestionAnalysis(quiz.questions[i], OptionCounts(quiz.questions[i], submissions)))
  }

  /** The percentage of submissions that selected an option, 0 when there are none. */
  function Percentage(count: nat, total: nat): (p: int)
    ensures total == 0 ==> p == 0
    ensures total > 0 ==> total * (2 * p - 1) <= 200 * count < total * (2 * p + 1)
    ensures count <= total ==> 0 <= p <= 100
  {
    if total == 0 then 0
    else
      if count <= total then
        RoundHalfUpBetween(100 * count, total, 0, 100);
        RoundHalfUp(100 * count, total)
      else RoundHalfUp(100 * count, total)
  }

  /** Without submissions every count and every percentage is 0. */
  lemma NoSubmissionsNoCounts(selectedQuiz: Lookup<Quiz>)
    ensures var r := GetQuestionAnalysis(selectedQuiz, []);
      forall i, j :: 0 <= i < |r| && 0 <= j < |r[i].optionCounts| ==>
        r[i].optionCounts[j].count == 0 && Percentage(r[i].optionCounts[j].count, 0) == 0
  {
  }

  /**
   * 100% is shown exactly when at least 99.5% selected the option, 0% exactly
   * when fewer than 0.5% did; with fewer than 200 submissions, 100% means all of them.
   */
  lemma PercentageExtremes(count: nat, total: nat)
    requires 0 < total && count <= total
    ensures Percentage(count, total) == 100 <==> 200 * count >= 199 * total
    ensures Percentage(count, total) == 0 <==> 200 * count < total
    ensures count == total ==> Percentage(count, total) == 100
    ensures total < 200 ==> (Percentage(count, total) == 100 <==> count == total)
  {
    var p := Percentage(count, total);
    if 200 * count >= 199 * total {
      assert total * 199 < total * (2 * p + 1);
      CancelLess(total, 199, 2 * p + 1);
    }
    if 200 * count < total {
      assert total * (2 * p - 1) < total * 1;
      CancelLess(total, 2 * p - 1, 1);
    }
  }

  /** 199 selections out of 200 are shown as 100%. */
  lemma NearlyAllRoundsToFull()
    ensures Percentage(199, 200) == 100
  {
    PercentageExtremes(199, 200);
  }
}
