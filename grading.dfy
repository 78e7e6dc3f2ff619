/** The quiz scorer of the course service (backend/course_service.py, submit_quiz):
    finding the quiz inside a course, judging each answer by its question's type,
    adding up the points, and turning them into a percentage and a pass flag. */
module Grading {
  import opened Wrappers
  import opened Models
  import Seqs
  import Text

  // ---------------------------------------------------------------- quiz lookup

  /** The quiz `quizId` of the first module `moduleId` of `course`. Only the first module
      with that id is examined: when its quiz is absent or has another id, there is none. */
  function FindQuiz(course: Course, moduleId: string, quizId: string): (r: Option<Quiz>)
    ensures r.Some? ==> r.value.id == quizId
    ensures r.Some? ==> exists k :: 0 <= k < |course.modules| && course.modules[k].id == moduleId
                                    && course.modules[k].content.quiz == r
    ensures (forall k :: 0 <= k < |course.modules| ==> course.modules[k].id != moduleId) ==> r.None?
  {
    match Seqs.FirstIndex(course.modules, (m: CourseModule) => m.id == moduleId)
    case None => None
    case Some(k) =>
      var quiz := course.modules[k].content.quiz;
      if quiz.Some? && quiz.value.id == quizId then quiz else None
  }

  /** The module lookup examines the first module with the given id and no other. */
  lemma FindQuizUsesFirstModule(course: Course, moduleId: string, quizId: string, k: nat)
    requires k < |course.modules| && course.modules[k].id == moduleId
    requires forall j :: 0 <= j < k ==> course.modules[j].id != moduleId
    ensures FindQuiz(course, moduleId, quizId) ==
      (var quiz := course.modules[k].content.quiz;
       if quiz.Some? && quiz.value.id == quizId then quiz else None)
  {
    var f := Seqs.FirstIndex(course.modules, (m: CourseModule) => m.id == moduleId);
    assert f.Some?;
  }

  // ---------------------------------------------------------------- per-question rules

  /** The index of the first question with the given id. */
  function FindQuestion(qs: seq<QuizQuestion>, id: string): (r: Option<nat>)
    ensures r.Some? ==> r.value < |qs| && qs[r.value].id == id
    ensures r.Some? ==> forall j :: 0 <= j < r.value ==> qs[j].id != id
    ensures r.None? <==> forall j :: 0 <= j < |qs| ==> qs[j].id != id
  {
    Seqs.FirstIndex(qs, (q: QuizQuestion) => q.id == id)
  }

  /** The ids of the options marked correct, in order. */
  function CorrectIds(os: seq<QuizOption>): (r: seq<string>)
    ensures forall x :: x in r <==> exists k :: 0 <= k < |os| && os[k].isCorrect && os[k].id == x
  {
    if |os| == 0 then []
    else
      var rest := CorrectIds(os[1..]);
      assert forall k :: 0 < k < |os| ==> os[k] == os[1..][k - 1];
      if os[0].isCorrect then [os[0].id] + rest else rest
  }

  /** The correct ids keep the options' order: those of a split list are those of the
      first part followed by those of the second. */
  lemma {:induction false} CorrectIdsAppend(os: seq<QuizOption>, ps: seq<QuizOption>)
    ensures CorrectIds(os + ps) == CorrectIds(os) + CorrectIds(ps)
  {
    if |os| == 0 {
      assert os + ps == ps;
    } else {
      assert (os + ps)[1..] == os[1..] + ps;
      CorrectIdsAppend(os[1..], ps);
    }
  }

  /** The id of the first option marked correct, if any. */
  function FirstCorrect(os: seq<QuizOption>): (r: Option<string>)
    ensures r.None? <==> forall k :: 0 <= k < |os| ==> !os[k].isCorrect
    ensures r.Some? ==> exists k :: 0 <= k < |os| && os[k].isCorrect && os[k].id == r.value
                                    && forall j :: 0 <= j < k ==> !os[j].isCorrect
  {
    match Seqs.FirstIndex(os, (o: QuizOption) => o.isCorrect)
    case None => None
    case Some(k) => Some(os[k].id)
  }

  function Elements(s: seq<string>): set<string> {
    set x | x in s
  }

  /** Exactly one option selected, and it is one marked correct. */
  predicate SingleChoiceCorrect(q: QuizQuestion, selected: seq<string>) {
    |selected| == 1 && selected[0] in CorrectIds(q.options)
  }

  /** The selected ids, as a set, are the correct ids. */
  predicate MultipleChoiceCorrect(q: QuizQuestion, selected: seq<string>) {
    Elements(selected) == Elements(CorrectIds(q.options))
  }

  /** Exactly one option selected, and it is the first one marked correct. */
  predicate TrueFalseCorrect(q: QuizQuestion, selected: seq<string>) {
    |selected| == 1 && FirstCorrect(q.options) == Some(selected[0])
  }

  /** Equal after lower-casing and stripping whitespace. */
  predicate TextInputCorrect(answer: string, expected: string) {
    Text.Normalize(answer) == Text.Normalize(expected)
  }

  /** A text-input question without a correct answer makes the quiz scorer fail
      (`None.lower()` raises) before anything is written. */
  datatype GradeError = MissingCorrectAnswer(questionId: string)

  /** The points one answer earns. */
  function AnswerPoints(qs: seq<QuizQuestion>, a: QuizAnswer): Result<int, GradeError> {
    match FindQuestion(qs, a.questionId)
    case None => Ok(0)
    case Some(k) =>
      var q := qs[k];
      var sel := a.selectedOptions;
      match q.qtype
      case SingleChoice => Ok(if SingleChoiceCorrect(q, sel) then q.points else 0)
      case MultipleChoice => Ok(if MultipleChoiceCorrect(q, sel) then q.points else 0)
      case TrueFalse => Ok(if TrueFalseCorrect(q, sel) then q.points else 0)
      case TextInput =>
        if q.correctAnswer.None? then Err(MissingCorrectAnswer(q.id))
        else Ok(if TextInputCorrect(a.textAnswer.GetOr(""), q.correctAnswer.value) then q.points else 0)
      case Essay => Ok(0)
  }

  // The rules, stated on the options themselves.

  /** Some option of `q` is marked correct and has id `x`. */
  predicate IsCorrectId(q: QuizQuestion, x: string) {
    exists k :: 0 <= k < |q.options| && q.options[k].isCorrect && q.options[k].id == x
  }

  lemma UnknownQuestionEarnsNothing(qs: seq<QuizQuestion>, a: QuizAnswer)
    requires forall j :: 0 <= j < |qs| ==> qs[j].id != a.questionId
    ensures AnswerPoints(qs, a) == Ok(0)
  {
  }

  lemma EssayEarnsNothing(qs: seq<QuizQuestion>, a: QuizAnswer, k: nat)
    requires FindQuestion(qs, a.questionId) == Some(k) && qs[k].qtype == Essay
    ensures AnswerPoints(qs, a) == Ok(0)
  {
  }

  lemma SingleChoiceRule(qs: seq<QuizQuestion>, a: QuizAnswer, k: nat)
    requires FindQuestion(qs, a.questionId) == Some(k) && qs[k].qtype == SingleChoice
    ensures AnswerPoints(qs, a) ==
      Ok(if |a.selectedOptions| == 1 && IsCorrectId(qs[k], a.selectedOptions[0]) then qs[k].points else 0)
  {
  }

  lemma TrueFalseRule(qs: seq<QuizQuestion>, a: QuizAnswer, k: nat)
    requires FindQuestion(qs, a.questionId) == Some(k) && qs[k].qtype == TrueFalse
    ensures AnswerPoints(qs, a) ==
      Ok(if && |a.selectedOptions| == 1
            && exists i :: 0 <= i < |qs[k].options| && qs[k].options[i].isCorrect
                           && qs[k].options[i].id == a.selectedOptions[0]
                           && forall j :: 0 <= j < i ==> !qs[k].options[j].isCorrect
         then qs[k].points else 0)
  {
    var os := qs[k].options;
    var sel := a.selectedOptions;
    var found := |sel| == 1 && exists i :: 0 <= i < |os| && os[i].isCorrect && os[i].id == sel[0]
                                           && forall j :: 0 <= j < i ==> !os[j].isCorrect;
    if found {
      var i :| 0 <= i < |os| && os[i].isCorrect && os[i].id == sel[0] && forall j :: 0 <= j < i ==> !os[j].isCorrect;
      var f := FirstCorrect(os);
      assert f.Some?;
      var i' :| 0 <= i' < |os| && os[i'].isCorrect && os[i'].id == f.value && forall j :: 0 <= j < i' ==> !os[j].isCorrect;
      assert i == i';
    }
  }

  lemma MultipleChoiceRule(qs: seq<QuizQuestion>, a: QuizAnswer, k: nat)
    requires FindQuestion(qs, a.questionId) == Some(k) && qs[k].qtype == MultipleChoice
    ensures AnswerPoints(qs, a) ==
      Ok(if && (forall i :: 0 <= i < |a.selectedOptions| ==> IsCorrectId(qs[k], a.selectedOptions[i]))
            && (forall j :: 0 <= j < |qs[k].options| && qs[k].options[j].isCorrect ==>
                  qs[k].options[j].id in a.selectedOptions)
         then qs[k].points else 0)
  {
    var q := qs[k];
    var sel := a.selectedOptions;
    var c := CorrectIds(q.options);
    var rule := && (forall i :: 0 <= i < |sel| ==> IsCorrectId(q, sel[i]))
                && (forall j :: 0 <= j < |q.options| && q.options[j].isCorrect ==> q.options[j].id in sel);
    if rule {
      assert Elements(sel) == Elements(c) by {
        forall x | x in Elements(c) ensures x in Elements(sel) {
          var j :| 0 <= j < |q.options| && q.options[j].isCorrect && q.options[j].id == x;
        }
        forall x | x in Elements(sel) ensures x in Elements(c) {
          var i :| 0 <= i < |sel| && sel[i] == x;
          assert IsCorrectId(q, sel[i]);
        }
      }
    }
    if MultipleChoiceCorrect(q, sel) {
      forall i | 0 <= i < |sel| ensures IsCorrectId(q, sel[i]) {
        assert sel[i] in Elements(sel);
      }
      forall j | 0 <= j < |q.options| && q.options[j].isCorrect ensures q.options[j].id in sel {
        assert q.options[j].id in Elements(c);
      }
    }
  }

  lemma TextInputRule(qs: seq<QuizQuestion>, a: QuizAnswer, k: nat)
    requires FindQuestion(qs, a.questionId) == Some(k) && qs[k].qtype == TextInput
    ensures qs[k].correctAnswer.None? ==> AnswerPoints(qs, a) == Err(MissingCorrectAnswer(qs[k].id))
    ensures qs[k].correctAnswer.Some? ==>
      (AnswerPoints(qs, a) ==
         Ok(if Text.Normalize(a.textAnswer.GetOr("")) == Text.Normalize(qs[k].correctAnswer.value)
            then qs[k].points else 0))
  {
  }

  /** The order of the selected options and repetitions among them make no difference. */
  lemma SelectionOrderIrrelevant(q: QuizQuestion, s: seq<string>, t: seq<string>)
    requires Elements(s) == Elements(t)
    ensures MultipleChoiceCorrect(q, s) <==> MultipleChoiceCorrect(q, t)
  {
  }

  // ---------------------------------------------------------------- totals

  /** The sum of the points of all questions, essays included. */
  function TotalPoints(qs: seq<QuizQuestion>): int {
    if |qs| == 0 then 0 else qs[0].points + TotalPoints(qs[1..])
  }

  lemma {:induction false} TotalPointsAppend(qs: seq<QuizQuestion>, rs: seq<QuizQuestion>)
    ensures TotalPoints(qs + rs) == TotalPoints(qs) + TotalPoints(rs)
  {
    if |qs| == 0 {
      assert qs + rs == rs;
    } else {
      assert (qs + rs)[1..] == qs[1..] + rs;
      TotalPointsAppend(qs[1..], rs);
    }
  }

  /** An essay question adds its points to the total, although no answer to it earns any. */
  lemma EssayCountsTowardTotal(qs: seq<QuizQuestion>, e: QuizQuestion)
    requires e.qtype == Essay
    ensures TotalPoints(qs + [e]) == TotalPoints(qs) + e.points
  {
    TotalPointsAppend(qs, [e]);
    assert TotalPoints([e]) == e.points + TotalPoints([]);
  }

  /** The points earned by a sequence of answers, each entry scored on its own, in order;
      the first answer that makes the quiz scorer fail decides the error. */
  function EarnedPoints(qs: seq<QuizQuestion>, answers: seq<QuizAnswer>): Result<int, GradeError>
    decreases |answers|
  {
    if |answers| == 0 then Ok(0)
    else match EarnedPoints(qs, answers[..|answers| - 1])
      case Err(e) => Err(e)
      case Ok(earned) =>
        match AnswerPoints(qs, answers[|answers| - 1])
        case Err(e) => Err(e)
        case Ok(p) => Ok(earned + p)
  }

  /** Once an answer fails, later answers do not change the outcome. */
  lemma {:induction false} EarnedPointsErrSticks(qs: seq<QuizQuestion>, s: seq<QuizAnswer>, t: seq<QuizAnswer>)
    requires EarnedPoints(qs, s).Err?
    ensures EarnedPoints(qs, s + t) == EarnedPoints(qs, s)
    decreases |t|
  {
    if |t| > 0 {
      var u := s + t[..|t| - 1];
      assert (s + t)[..|s + t| - 1] == u;
      EarnedPointsErrSticks(qs, s, t[..|t| - 1]);
    } else {
      assert s + t == s;
    }
  }

  // ---------------------------------------------------------------- the bound on earned points

  predicate DistinctQuestionIds(qs: seq<QuizQuestion>) {
    forall i, j :: 0 <= i < j < |qs| ==> qs[i].id != qs[j].id
  }

  predicate DistinctAnswerIds(answers: seq<QuizAnswer>) {
    forall i, j :: 0 <= i < j < |answers| ==> answers[i].questionId != answers[j].questionId
  }

  predicate NonNegativePoints(qs: seq<QuizQuestion>) {
    forall i :: 0 <= i < |qs| ==> qs[i].points >= 0
  }

  /** The points of the questions whose id is in `ids`. */
  function PointsOf(qs: seq<QuizQuestion>, ids: set<string>): int {
    if |qs| == 0 then 0 else (if qs[0].id in ids then qs[0].points else 0) + PointsOf(qs[1..], ids)
  }

  function AnswerIds(answers: seq<QuizAnswer>): set<string> {
    set i | 0 <= i < |answers| :: answers[i].questionId
  }

  lemma {:induction false} PointsOfAtMostTotal(qs: seq<QuizQuestion>, ids: set<string>)
    requires NonNegativePoints(qs)
    ensures PointsOf(qs, ids) <= TotalPoints(qs)
  {
    if |qs| > 0 {
      PointsOfAtMostTotal(qs[1..], ids);
    }
  }

  /** Adding an id that no question carries changes nothing; adding the id of the one
      question carrying it adds that question's points. */
  lemma {:induction false} PointsOfAdd(qs: seq<QuizQuestion>, ids: set<string>, x: string)
    requires DistinctQuestionIds(qs) && x !in ids
    ensures FindQuestion(qs, x).None? ==> PointsOf(qs, ids + {x}) == PointsOf(qs, ids)
    ensures FindQuestion(qs, x).Some? ==>
      PointsOf(qs, ids + {x}) == PointsOf(qs, ids) + qs[FindQuestion(qs, x).value].points
  {
    if |qs| > 0 {
      var rest := qs[1..];
      assert DistinctQuestionIds(rest);
      PointsOfAdd(rest, ids, x);
      if qs[0].id == x {
        assert FindQuestion(qs, x) == Some(0);
        assert FindQuestion(rest, x).None? by {
          forall j | 0 <= j < |rest| ensures rest[j].id != x {
            assert rest[j] == qs[j + 1];
          }
        }
      } else {
        match FindQuestion(rest, x)
        case None =>
          assert FindQuestion(qs, x).None?;
        case Some(k) =>
          assert qs[k + 1].id == x;
          assert FindQuestion(qs, x) == Some(k + 1);
      }
    }
  }

  /** The points one answer earns are those of its question or nothing. */
  lemma AnswerPointsBound(qs: seq<QuizQuestion>, a: QuizAnswer, p: int)
    requires NonNegativePoints(qs) && AnswerPoints(qs, a) == Ok(p)
    ensures 0 <= p
    ensures FindQuestion(qs, a.questionId).None? ==> p == 0
    ensures FindQuestion(qs, a.questionId).Some? ==> p <= qs[FindQuestion(qs, a.questionId).value].points
  {
  }

  lemma {:induction false} EarnedAtMostAnswered(qs: seq<QuizQuestion>, answers: seq<QuizAnswer>, e: int)
    requires DistinctQuestionIds(qs) && DistinctAnswerIds(answers) && NonNegativePoints(qs)
    requires EarnedPoints(qs, answers) == Ok(e)
    ensures 0 <= e <= PointsOf(qs, AnswerIds(answers))
    decreases |answers|
  {
    if |answers| == 0 {
      assert AnswerIds(answers) == {};
      PointsOfZero(qs);
    } else {
      var n := |answers| - 1;
      var init := answers[..n];
      var last := answers[n];
      assert DistinctAnswerIds(init);
      var e0 := EarnedPoints(qs, init).value;
      var p := AnswerPoints(qs, last).value;
      assert e == e0 + p;
      EarnedAtMostAnswered(qs, init, e0);
      assert AnswerIds(answers) == AnswerIds(init) + {last.questionId} by {
        forall x | x in AnswerIds(answers) ensures x in AnswerIds(init) + {last.questionId} {
          var i :| 0 <= i < |answers| && answers[i].questionId == x;
          if i < n { assert init[i] == answers[i]; }
        }
        forall x | x in AnswerIds(init) ensures x in AnswerIds(answers) {
          var i :| 0 <= i < |init| && init[i].questionId == x;
          assert answers[i] == init[i];
        }
      }
      assert last.questionId !in AnswerIds(init) by {
        forall i | 0 <= i < |init| ensures init[i].questionId != last.questionId {
          assert init[i] == answers[i];
        }
      }
      PointsOfAdd(qs, AnswerIds(init), last.questionId);
      AnswerPointsBound(qs, last, p);
    }
  }

  lemma {:induction false} PointsOfZero(qs: seq<QuizQuestion>)
    ensures PointsOf(qs, {}) == 0
  {
    if |qs| > 0 {
      PointsOfZero(qs[1..]);
    }
  }

  /** When question ids are distinct, answers name distinct questions and no question is
      worth negative points, the earned points never exceed the total. */
  lemma EarnedAtMostTotal(qs: seq<QuizQuestion>, answers: seq<QuizAnswer>, e: int)
    requires DistinctQuestionIds(qs) && DistinctAnswerIds(answers) && NonNegativePoints(qs)
    requires EarnedPoints(qs, answers) == Ok(e)
    ensures 0 <= e <= TotalPoints(qs)
  {
    EarnedAtMostAnswered(qs, answers, e);
    PointsOfAtMostTotal(qs, AnswerIds(answers));
  }

  // ---------------------------------------------------------------- percentage and pass flag

  /** earned / total * 100, or 0 when the total is not positive (real arithmetic, so no
      floating-point rounding). */
  function ScorePercentage(earned: int, total: int): (r: real)
    ensures total > 0 ==> r * (total as real) == (earned as real) * 100.0
    ensures total <= 0 ==> r == 0.0
  {
    if total > 0 then (earned as real / total as real) * 100.0 else 0.0
  }

  lemma ScoreBounds(earned: int, total: int)
    requires 0 < total && 0 <= earned <= total
    ensures 0.0 <= ScorePercentage(earned, total) <= 100.0
    ensures ScorePercentage(earned, total) == 100.0 <==> earned == total
  {
    var e, t := earned as real, total as real;
    assert e / t <= 1.0;
  }

  /** The pass mark is inclusive. */
  predicate Passed(score: real, passingScore: int) {
    score >= passingScore as real
  }

  datatype QuizScore = QuizScore(score: real, maxScore: int, earnedPoints: int, passed: bool, passingScore: int)

  /** The result submit_quiz reports for `answers` against `quiz`. */
  function Grade(quiz: Quiz, answers: seq<QuizAnswer>): (r: Result<QuizScore, GradeError>)
    ensures r.Err? <==> EarnedPoints(quiz.questions, answers).Err?
    ensures r.Ok? ==> && EarnedPoints(quiz.questions, answers) == Ok(r.value.earnedPoints)
                      && r.value.maxScore == TotalPoints(quiz.questions)
                      && r.value.passingScore == quiz.passingScore
                      && (r.value.passed <==> r.value.score >= quiz.passingScore as real)
    ensures r.Ok? ==> r.value.score == ScorePercentage(r.value.earnedPoints, r.value.maxScore)
  {
    match EarnedPoints(quiz.questions, answers)
    case Err(e) => Err(e)
    case Ok(earned) =>
      var total := TotalPoints(quiz.questions);
      var score := ScorePercentage(earned, total);
      Ok(QuizScore(score, total, earned, Passed(score, quiz.passingScore), quiz.passingScore))
  }

  // ---------------------------------------------------------------- the scoring loop

  /** The loop of submit_quiz over the submitted answers. */
  method ScoreAnswers(quiz: Quiz, answers: seq<QuizAnswer>) returns (r: Result<int, GradeError>)
    ensures r == EarnedPoints(quiz.questions, answers)
  {
    var earned := 0;
    var i := 0;
    while i < |answers|
      invariant 0 <= i <= |answers|
      invariant EarnedPoints(quiz.questions, answers[..i]) == Ok(earned)
    {
      var p := AnswerPoints(quiz.questions, answers[i]);
      assert answers[..i + 1][..i] == answers[..i];
      if p.Err? {
        EarnedPointsErrSticks(quiz.questions, answers[..i + 1], answers[i + 1..]);
        assert answers[..i + 1] + answers[i + 1..] == answers;
        return Err(p.error);
      }
      earned := earned + p.value;
      i := i + 1;
    }
    assert answers[..i] == answers;
    return Ok(earned);
  }

  // ---------------------------------------------------------------- worked examples

  const OptA := QuizOption("a", "A", true)
  const OptB := QuizOption("b", "B", false)
  const OptC := QuizOption("c", "C", true)

  lemma CorrectIdsOfExample()
    ensures CorrectIds([OptA, OptB, OptC]) == ["a", "c"]
    ensures CorrectIds([OptA, OptC]) == ["a", "c"]
    ensures CorrectIds([OptA, OptB]) == ["a"]
    ensures CorrectIds([OptA]) == ["a"]
  {
    assert [OptC][1..] == [] && [OptB][1..] == [];
    assert CorrectIds([OptC]) == ["c"];
    assert CorrectIds([OptB]) == [];
    assert [OptB, OptC][1..] == [OptC];
    assert CorrectIds([OptB, OptC]) == ["c"];
    assert [OptA, OptB, OptC][1..] == [OptB, OptC];
    assert [OptA, OptC][1..] == [OptC];
    assert [OptA, OptB][1..] == [OptB];
    assert [OptA][1..] == [];
  }

  /** Correct options {a, c}: selecting c, a, a earns the points; a alone or a, c, b not. */
  lemma MultipleChoiceExample()
    ensures var q := QuizQuestion("q", "?", MultipleChoice, [OptA, OptB, OptC], None, 1, None);
      && AnswerPoints([q], QuizAnswer("q", ["c", "a", "a"], None)) == Ok(1)
      && AnswerPoints([q], QuizAnswer("q", ["a"], None)) == Ok(0)
      && AnswerPoints([q], QuizAnswer("q", ["a", "c", "b"], None)) == Ok(0)
  {
    var q := QuizQuestion("q", "?", MultipleChoice, [OptA, OptB, OptC], None, 1, None);
    assert FindQuestion([q], "q") == Some(0);
    CorrectIdsOfExample();
    assert Elements(["a", "c"]) == {"a", "c"};
    assert Elements(["c", "a", "a"]) == {"a", "c"};
    assert Elements(["a"]) == {"a"};
    assert "c" !in Elements(["a"]);
    assert "b" in Elements(["a", "c", "b"]);
  }

  /** Two correct options: single choice accepts either, true/false only the first. */
  lemma TrueFalseUsesFirstCorrect()
    ensures var s := QuizQuestion("q", "?", SingleChoice, [OptA, OptC], None, 1, None);
            var t := QuizQuestion("q", "?", TrueFalse, [OptA, OptC], None, 1, None);
      && AnswerPoints([s], QuizAnswer("q", ["c"], None)) == Ok(1)
      && AnswerPoints([t], QuizAnswer("q", ["c"], None)) == Ok(0)
      && AnswerPoints([t], QuizAnswer("q", ["a"], None)) == Ok(1)
  {
    var s := QuizQuestion("q", "?", SingleChoice, [OptA, OptC], None, 1, None);
    var t := QuizQuestion("q", "?", TrueFalse, [OptA, OptC], None, 1, None);
    assert FindQuestion([s], "q") == Some(0);
    assert FindQuestion([t], "q") == Some(0);
    CorrectIdsOfExample();
    assert FirstCorrect(t.options) == Some("a");
  }

  /** A quiz of ten points in two single-choice questions worth `p` and `10 - p`, the
      first answered correctly and the second wrongly. */
  function SplitQuiz(p: int): Quiz {
    Quiz("z", "Z", None, [QuizQuestion("q1", "?", SingleChoice, [OptA, OptB], None, p, None),
                          QuizQuestion("q2", "?", SingleChoice, [OptA, OptB], None, 10 - p, None)], 70, None, None)
  }

  const SplitAnswers := [QuizAnswer("q1", ["a"], None), QuizAnswer("q2", ["b"], None)]

  /** Answering only the first question of the split quiz earns exactly its `p` points
      of the ten. */
  lemma SplitQuizGrade(p: int)
    ensures Grade(SplitQuiz(p), SplitAnswers)
      == Ok(QuizScore(ScorePercentage(p, 10), 10, p, Passed(ScorePercentage(p, 10), 70), 70))
  {
    var quiz := SplitQuiz(p);
    var q2 := quiz.questions[1];
    var a1, a2 := SplitAnswers[0], SplitAnswers[1];
    assert FindQuestion(quiz.questions, "q1") == Some(0);
    assert quiz.questions[0].id != "q2" && quiz.questions[1].id == "q2";
    assert FindQuestion(quiz.questions, "q2") == Some(1);
    CorrectIdsOfExample();
    assert AnswerPoints(quiz.questions, a1) == Ok(p);
    assert AnswerPoints(quiz.questions, a2) == Ok(0);
    assert SplitAnswers[..1] == [a1];
    assert [a1][..0] == [];
    assert EarnedPoints(quiz.questions, [a1]) == Ok(p);
    assert EarnedPoints(quiz.questions, SplitAnswers) == Ok(p);
    assert quiz.questions[1..] == [q2] && [q2][1..] == [];
    assert TotalPoints([q2]) == 10 - p;
    assert TotalPoints(quiz.questions) == 10;
  }

  /** At a pass mark of 70, seven points of ten score exactly 70 % and pass; six points
      score 60 % and fail. */
  lemma PassMarkIsInclusive()
    ensures Grade(SplitQuiz(7), SplitAnswers) == Ok(QuizScore(70.0, 10, 7, true, 70))
    ensures Grade(SplitQuiz(6), SplitAnswers) == Ok(QuizScore(60.0, 10, 6, false, 70))
  {
    SplitQuizGrade(7);
    SplitQuizGrade(6);
    assert ScorePercentage(7, 10) == 70.0;
    assert ScorePercentage(6, 10) == 60.0;
  }

  /** Each answer entry is scored on its own: answering the one question twice earns
      twice its points, a score of 200 %. */
  lemma RepeatedAnswerScoresTwice()
    ensures var q := QuizQuestion("q", "?", SingleChoice, [OptA], None, 1, None);
            var quiz := Quiz("z", "Z", None, [q], 70, None, None);
            var a := QuizAnswer("q", ["a"], None);
      Grade(quiz, [a, a]) == Ok(QuizScore(200.0, 1, 2, true, 70))
  {
    var q := QuizQuestion("q", "?", SingleChoice, [OptA], None, 1, None);
    var quiz := Quiz("z", "Z", None, [q], 70, None, None);
    var a := QuizAnswer("q", ["a"], None);
    assert FindQuestion(quiz.questions, "q") == Some(0);
    assert CorrectIds(q.options) == ["a"];
    assert AnswerPoints(quiz.questions, a) == Ok(1);
    assert [a, a][..1] == [a];
    assert [a][..0] == [];
    assert EarnedPoints(quiz.questions, [a]) == Ok(1);
    assert EarnedPoints(quiz.questions, [a, a]) == Ok(2);
    assert TotalPoints(quiz.questions) == 1;
    assert ScorePercentage(2, 1) == 200.0;
  }

  /** A quiz with no questions scores 0 %, and with the default pass mark of 70 it fails. */
  lemma EmptyDefaultQuizFails(id: string, title: string, answers: seq<QuizAnswer>)
    ensures Grade(NewQuiz(id, title), answers) == Ok(QuizScore(0.0, 0, 0, false, 70))
  {
    EmptyQuizEarnsNothing(answers);
  }

  lemma {:induction false} EmptyQuizEarnsNothing(answers: seq<QuizAnswer>)
    ensures EarnedPoints([], answers) == Ok(0)
    decreases |answers|
  {
    if |answers| > 0 {
      EmptyQuizEarnsNothing(answers[..|answers| - 1]);
    }
  }
}
