/** The REST quiz controller (backend/src/quizzes/quizzes.controller.ts): an in-memory
    store of quizzes and questions and one attempt per (user, quiz). A quiz refers to its
    questions by id, so an update through the question store is seen by the quiz, as the
    shared objects of the source are. */
module QuizzesController {

  import opened Base
  import opened QuizEntities
  import QuizGateway

  /** The backend's user roles. */
  datatype UserRole = Student | Instructor | Admin

  /** A stored quiz; `questionIds` lists its questions in order. */
  datatype Quiz = Quiz(
    id: string,
    title: string,
    description: string,
    lessonId: string,
    courseId: string,
    questionIds: seq<string>,
    timeLimit: nat,
    passingScore: real,
    status: QuizStatus)

  /** The body of createQuiz. */
  datatype QuizData = QuizData(
    title: string,
    description: string,
    lessonId: string,
    courseId: string,
    timeLimit: nat,
    passingScore: real,
    status: QuizStatus)

  /** The body of updateQuiz: the fields it sets. */
  datatype QuizPatch = QuizPatch(
    title: Option<string>,
    description: Option<string>,
    lessonId: Option<string>,
    courseId: Option<string>,
    timeLimit: Option<nat>,
    passingScore: Option<real>,
    status: Option<QuizStatus>)

  /** The body of addQuestion. */
  datatype QuestionData = QuestionData(
    questionType: QuestionType,
    text: string,
    points: nat,
    choices: seq<Choice>,
    testCases: seq<CodeTestCase>)

  /** The body of updateQuestion: the fields it sets. */
  datatype QuestionPatch = QuestionPatch(
    questionType: Option<QuestionType>,
    text: Option<string>,
    points: Option<nat>,
    order: Option<int>,
    choices: Option<seq<Choice>>,
    testCases: Option<seq<CodeTestCase>>)

  datatype AttemptStatus = InProgress | Finished

  /** An attempt; times are in milliseconds. */
  datatype Attempt = Attempt(
    startTime: int,
    answers: map<string, Answer>,
    status: AttemptStatus,
    endTime: Option<int>,
    score: Option<Score>,
    passed: Option<bool>)

  datatype StartInfo = StartInfo(quizId: string, timeLimit: nat, questionCount: nat)

  datatype Outcome = Outcome(score: Score, passed: bool, totalQuestions: nat)

  const NoQuiz := NotFound("Quiz not found")
  const NoQuestion := NotFound("Question not found")
  const NotInstructor := BadRequest("Only instructors can create quizzes")
  const NotAvailable := BadRequest("Quiz is not available")
  const AlreadyStarted := BadRequest("Quiz already in progress")
  const NoActiveAttempt := BadRequest("No active quiz attempt found")

  /** The Quiz constructor (quiz.entity.ts:23-29): whatever the body says, a new quiz is a
      draft with no questions. */
  function NewQuiz(id: string, data: QuizData): (quiz: Quiz)
    ensures quiz.id == id && quiz.status == Draft && quiz.questionIds == []
    ensures quiz.title == data.title && quiz.timeLimit == data.timeLimit && quiz.passingScore == data.passingScore
  {
    Quiz(id, data.title, data.description, data.lessonId, data.courseId, [], data.timeLimit, data.passingScore, Draft)
  }

  function Patched<T>(old_: T, patch: Option<T>): T
  {
    match patch
    case Some(v) => v
    case None => old_
  }

  function PatchQuiz(quiz: Quiz, patch: QuizPatch): (r: Quiz)
    ensures r.id == quiz.id && r.questionIds == quiz.questionIds
    ensures patch.status.Some? ==> r.status == patch.status.value
    ensures patch.status.None? ==> r.status == quiz.status
  {
    quiz.(title := Patched(quiz.title, patch.title),
          description := Patched(quiz.description, patch.description),
          lessonId := Patched(quiz.lessonId, patch.lessonId),
          courseId := Patched(quiz.courseId, patch.courseId),
          timeLimit := Patched(quiz.timeLimit, patch.timeLimit),
          passingScore := Patched(quiz.passingScore, patch.passingScore),
          status := Patched(quiz.status, patch.status))
  }

  function PatchQuestion(question: Question, patch: QuestionPatch): (r: Question)
    ensures r.id == question.id && r.quizId == question.quizId
    ensures patch.points.Some? ==> r.points == patch.points.value
    ensures patch.points.None? ==> r.points == question.points
  {
    question.(questionType := Patched(question.questionType, patch.questionType),
              text := Patched(question.text, patch.text),
              points := Patched(question.points, patch.points),
              order := Patched(question.order, patch.order),
              choices := Patched(question.choices, patch.choices),
              testCases := Patched(question.testCases, patch.testCases))
  }

  /** `quiz.questions.filter(q => q.id !== questionId)` on the id list. */
  function RemoveId(ids: seq<string>, x: string): (r: seq<string>)
    ensures forall y :: y in r <==> y in ids && y != x
    ensures |r| <= |ids|
    ensures x !in ids ==> r == ids
    ensures Distinct(ids) ==> Distinct(r)
  {
    if ids == [] then []
    else
      var rest := RemoveId(ids[1..], x);
      assert forall y :: y in ids <==> y == ids[0] || y in ids[1..];
      if ids[0] == x then rest
      else
        assert Distinct(ids) ==> ids[0] !in rest && Distinct(ids[1..]);
        [ids[0]] + rest
  }

  /** With distinct ids, removing the one at position k leaves the others in order. */
  lemma {:induction false} RemoveIdAtPosition(ids: seq<string>, k: nat)
    requires Distinct(ids) && k < |ids|
    ensures RemoveId(ids, ids[k]) == ids[..k] + ids[k + 1..]
  {
    if k == 0 {
      assert ids[0] !in ids[1..];
      assert ids[1..] == ids[k + 1..];
    } else {
      var tail := ids[1..];
      assert Distinct(tail);
      assert tail[k - 1] == ids[k];
      RemoveIdAtPosition(tail, k - 1);
      assert ids[0] != ids[k];
      assert RemoveId(ids, ids[k]) == [ids[0]] + RemoveId(tail, ids[k]);
      assert ids[..k] == [ids[0]] + tail[..k - 1];
      assert ids[k + 1..] == tail[k..];
    }
  }

  // ---------------------------------------------------------------- scoring

  /** validateChoiceAnswer (quizzes.controller.ts:257-268): the question's type selects the
      check. A multiple-choice answer must be a list; any other type looks the answer up
      as one choice id, which a list never equals. */
  predicate ControllerChoiceAccepted(question: Question, answer: Answer)
  {
    if question.questionType == MultipleChoice then answer.Several? && ListMatchesCorrect(question, answer.values)
    else answer.Single? && SingleIsCorrect(question, answer.value)
  }

  /** Whether submitQuiz awards a question its points. */
  predicate ControllerEarns(question: Question, answers: map<string, Answer>, verify: CodeVerifier)
  {
    && question.id in answers
    && Truthy(answers[question.id])
    && if question.questionType == Code then verify(question, answers[question.id])
       else ControllerChoiceAccepted(question, answers[question.id])
  }

  predicate IsAnswered(question: Question, answers: map<string, Answer>)
  {
    question.id in answers && Truthy(answers[question.id])
  }

  /** The questions with a truthy answer, in order. */
  function AnsweredQuestions(questions: seq<Question>, answers: map<string, Answer>): (r: seq<Question>)
    ensures |r| <= |questions|
    ensures forall q :: q in r <==> q in questions && IsAnswered(q, answers)
  {
    if questions == [] then []
    else
      var last := questions[|questions| - 1];
      var front := questions[..|questions| - 1];
      assert forall q :: q in questions <==> q in front || q == last;
      AnsweredQuestions(front, answers) + (if IsAnswered(last, answers) then [last] else [])
  }

  /** submitQuiz's total: the points of the answered questions only. */
  function AnsweredPoints(questions: seq<Question>, answers: map<string, Answer>): nat
  {
    if questions == [] then 0
    else
      var last := questions[|questions| - 1];
      AnsweredPoints(questions[..|questions| - 1], answers) + (if IsAnswered(last, answers) then last.points else 0)
  }

  /** submitQuiz's earned points. */
  function ControllerEarned(questions: seq<Question>, answers: map<string, Answer>, verify: CodeVerifier): nat
  {
    if questions == [] then 0
    else
      var last := questions[|questions| - 1];
      ControllerEarned(questions[..|questions| - 1], answers, verify)
        + (if ControllerEarns(last, answers, verify) then last.points else 0)
  }

  lemma TotalPointsAppend(questions: seq<Question>, q: Question)
    ensures TotalPoints(questions + [q]) == TotalPoints(questions) + q.points
  {
    assert (questions + [q])[..|questions|] == questions;
  }

  /** The controller's total is the total of the answered questions, and earned <= total. */
  lemma {:induction false} ControllerTotals(questions: seq<Question>, answers: map<string, Answer>, verify: CodeVerifier)
    ensures AnsweredPoints(questions, answers) == TotalPoints(AnsweredQuestions(questions, answers))
    ensures ControllerEarned(questions, answers, verify) <= AnsweredPoints(questions, answers) <= TotalPoints(questions)
  {
    if questions != [] {
      var front := questions[..|questions| - 1];
      var last := questions[|questions| - 1];
      ControllerTotals(front, answers, verify);
      AnsweredTotalStep(questions, answers);
    }
  }

  /** The answered total grows by the last question's points exactly when it is answered. */
  lemma AnsweredTotalStep(questions: seq<Question>, answers: map<string, Answer>)
    requires questions != []
    ensures var last := questions[|questions| - 1];
      TotalPoints(AnsweredQuestions(questions, answers))
        == TotalPoints(AnsweredQuestions(questions[..|questions| - 1], answers)) + (if IsAnswered(last, answers) then last.points else 0)
  {
    var front := questions[..|questions| - 1];
    var last := questions[|questions| - 1];
    var before := AnsweredQuestions(front, answers);
    if IsAnswered(last, answers) {
      assert AnsweredQuestions(questions, answers) == before + [last];
      TotalPointsAppend(before, last);
    } else {
      assert AnsweredQuestions(questions, answers) == before + [];
      assert before + [] == before;
    }
  }

  /** When every question has a truthy answer the controller's total is every question's
      points, as in the live gateway; an unanswered question adds to neither total. */
  lemma {:induction false} AllAnsweredCountsEverything(questions: seq<Question>, answers: map<string, Answer>)
    requires forall i | 0 <= i < |questions| :: IsAnswered(questions[i], answers)
    ensures AnsweredPoints(questions, answers) == TotalPoints(questions)
  {
    if questions != [] {
      AllAnsweredCountsEverything(questions[..|questions| - 1], answers);
      assert IsAnswered(questions[|questions| - 1], answers);
    }
  }

  lemma {:induction false} AnsweredPointsAppend(a: seq<Question>, b: seq<Question>, answers: map<string, Answer>)
    ensures AnsweredPoints(a + b, answers) == AnsweredPoints(a, answers) + AnsweredPoints(b, answers)
    decreases |b|
  {
    if b == [] {
      assert a + b == a;
    } else {
      var front := b[..|b| - 1];
      assert (a + b)[..|a + b| - 1] == a + front;
      assert (a + b)[|a + b| - 1] == b[|b| - 1];
      AnsweredPointsAppend(a, front, answers);
    }
  }

  lemma {:induction false} ControllerEarnedAppend(a: seq<Question>, b: seq<Question>, answers: map<string, Answer>, verify: CodeVerifier)
    ensures ControllerEarned(a + b, answers, verify) == ControllerEarned(a, answers, verify) + ControllerEarned(b, answers, verify)
    decreases |b|
  {
    if b == [] {
      assert a + b == a;
    } else {
      var front := b[..|b| - 1];
      assert (a + b)[..|a + b| - 1] == a + front;
      assert (a + b)[|a + b| - 1] == b[|b| - 1];
      ControllerEarnedAppend(a, front, answers, verify);
    }
  }

  /** An unanswered question, wherever it stands in the quiz, changes neither total. */
  lemma UnansweredIsSkipped(front: seq<Question>, q: Question, back: seq<Question>, answers: map<string, Answer>, verify: CodeVerifier)
    requires !IsAnswered(q, answers)
    ensures AnsweredPoints(front + [q] + back, answers) == AnsweredPoints(front + back, answers)
    ensures ControllerEarned(front + [q] + back, answers, verify) == ControllerEarned(front + back, answers, verify)
  {
    assert [q][..0] == [];
    AnsweredPointsAppend(front + [q], back, answers);
    AnsweredPointsAppend(front, [q], answers);
    AnsweredPointsAppend(front, back, answers);
    ControllerEarnedAppend(front + [q], back, answers, verify);
    ControllerEarnedAppend(front, [q], answers, verify);
    ControllerEarnedAppend(front, back, answers, verify);
  }

  /** The controller and the live gateway check a choice answer alike when its shape fits
      the question (a list exactly for multiple choice), and the controller rejects every
      other shape. */
  lemma ChoiceChecksCompared(question: Question, answer: Answer)
    ensures (question.questionType == MultipleChoice <==> answer.Several?) ==>
              (ControllerChoiceAccepted(question, answer) <==> QuizGateway.ChoiceAccepted(question, answer))
    ensures !(question.questionType == MultipleChoice <==> answer.Several?) ==> !ControllerChoiceAccepted(question, answer)
  {
  }

  /** Where the two disagree: a single-choice question whose correct choice is "a",
      answered with the list ["a"], is accepted by the gateway and rejected here. */
  lemma ChoiceChecksDiffer()
    ensures var question := Question("q", "z", SingleChoice, "", 1, 1, [Choice("a", "", true)], []);
      QuizGateway.ChoiceAccepted(question, Several(["a"])) && !ControllerChoiceAccepted(question, Several(["a"]))
  {
    var question := Question("q", "z", SingleChoice, "", 1, 1, [Choice("a", "", true)], []);
    CorrectChoiceIdsOne(Choice("a", "", true));
    assert CorrectChoiceIds(question.choices) == ["a"];
  }

  /** The scoring loop of submitQuiz (quizzes.controller.ts:179-202). */
  method ScoreAnswers(questions: seq<Question>, answers: map<string, Answer>, verify: CodeVerifier)
    returns (earned: nat, total: nat)
    ensures total == AnsweredPoints(questions, answers)
    ensures earned == ControllerEarned(questions, answers, verify)
  {
    earned, total := 0, 0;
    for i := 0 to |questions|
      invariant total == AnsweredPoints(questions[..i], answers)
      invariant earned == ControllerEarned(questions[..i], answers, verify)
    {
      var question := questions[i];
      assert questions[..i + 1][..i] == questions[..i];
      if !(question.id in answers && Truthy(answers[question.id])) {
        continue;
      }
      var answer := answers[question.id];
      total := total + question.points;
      match question.questionType {
        case MultipleChoice =>
          if ControllerChoiceAccepted(question, answer) { earned := earned + question.points; }
        case SingleChoice =>
          if ControllerChoiceAccepted(question, answer) { earned := earned + question.points; }
        case TrueFalse =>
          if ControllerChoiceAccepted(question, answer) { earned := earned + question.points; }
        case Code =>
          if verify(question, answer) { earned := earned + question.points; }
      }
    }
    assert questions[..|questions|] == questions;
  }

  /** Attempts are never removed, and a finished attempt never changes again. */
  ghost predicate AttemptsAdvance(before: map<string, map<string, Attempt>>, after: map<string, map<string, Attempt>>)
  {
    forall u | u in before ::
      u in after && forall q | q in before[u] ::
        q in after[u] && (before[u][q].status == Finished ==> after[u][q] == before[u][q])
  }

  /** Replacing an attempt that is still in progress keeps every finished attempt. */
  lemma FinishingAdvances(attempts: map<string, map<string, Attempt>>, userId: string, quizId: string, attempt: Attempt)
    requires userId in attempts && quizId in attempts[userId] && attempts[userId][quizId].status == InProgress
    ensures AttemptsAdvance(attempts, attempts[userId := attempts[userId][quizId := attempt]])
  {
  }

  function AttemptOf(attempts: map<string, map<string, Attempt>>, userId: string, quizId: string): Option<Attempt>
  {
    if userId in attempts && quizId in attempts[userId] then Some(attempts[userId][quizId]) else None
  }

  // ------------------------------------------------------------ the store

  /** Each quiz is filed under its id and lists distinct questions of its own; each stored
      question is filed under its id and is listed by its quiz. */
  ghost predicate StoreValid(quizzes: map<string, Quiz>, questions: map<string, Question>)
  {
    && (forall q | q in quizzes ::
          && quizzes[q].id == q
          && Distinct(quizzes[q].questionIds)
          && forall i | 0 <= i < |quizzes[q].questionIds| ::
               quizzes[q].questionIds[i] in questions && questions[quizzes[q].questionIds[i]].quizId == q)
    && (forall k | k in questions ::
          questions[k].id == k && questions[k].quizId in quizzes && k in quizzes[questions[k].quizId].questionIds)
  }

  /** The questions of a quiz, in order. */
  function QuestionList(quizzes: map<string, Quiz>, questions: map<string, Question>, quizId: string): (qs: seq<Question>)
    requires StoreValid(quizzes, questions) && quizId in quizzes
    ensures |qs| == |quizzes[quizId].questionIds|
    ensures forall i | 0 <= i < |qs| ::
              qs[i] == questions[quizzes[quizId].questionIds[i]] && qs[i].quizId == quizId && qs[i].id == quizzes[quizId].questionIds[i]
  {
    var ids := quizzes[quizId].questionIds;
    seq(|ids|, i requires 0 <= i < |ids| => questions[ids[i]])
  }

  lemma NewQuizKeepsValid(quizzes: map<string, Quiz>, questions: map<string, Question>, quizId: string, data: QuizData)
    requires StoreValid(quizzes, questions) && quizId !in quizzes
    ensures StoreValid(quizzes[quizId := NewQuiz(quizId, data)], questions)
  {
  }

  lemma PatchKeepsValid(quizzes: map<string, Quiz>, questions: map<string, Question>, quizId: string, patch: QuizPatch)
    requires StoreValid(quizzes, questions) && quizId in quizzes
    ensures StoreValid(quizzes[quizId := PatchQuiz(quizzes[quizId], patch)], questions)
  {
  }

  /** Adding a question under a fresh id keeps the store consistent, and the earlier
      questions of the quiz keep their places. */
  lemma AddKeepsValid(quizzes: map<string, Quiz>, questions: map<string, Question>, quizId: string, question: Question)
    requires StoreValid(quizzes, questions) && quizId in quizzes
    requires question.id !in questions && question.quizId == quizId
    ensures var quiz := quizzes[quizId];
      var quizzes' := quizzes[quizId := quiz.(questionIds := quiz.questionIds + [question.id])];
      var questions' := questions[question.id := question];
      && StoreValid(quizzes', questions')
      && QuestionList(quizzes', questions', quizId) == QuestionList(quizzes, questions, quizId) + [question]
  {
    var quiz := quizzes[quizId];
    var ids := quiz.questionIds + [question.id];
    var quizzes' := quizzes[quizId := quiz.(questionIds := ids)];
    var questions' := questions[question.id := question];
    assert question.id !in quiz.questionIds;
    forall q | q in quizzes'
      ensures forall i | 0 <= i < |quizzes'[q].questionIds| ::
                quizzes'[q].questionIds[i] in questions' && questions'[quizzes'[q].questionIds[i]].quizId == q
    {
      if q != quizId {
        forall i | 0 <= i < |quizzes'[q].questionIds| ensures quizzes'[q].questionIds[i] != question.id {
        }
      }
    }
    assert StoreValid(quizzes', questions');
  }

  /** Deleting a question keeps the store consistent. */
  lemma DeleteKeepsValid(quizzes: map<string, Quiz>, questions: map<string, Question>, quizId: string, questionId: string)
    requires StoreValid(quizzes, questions) && quizId in quizzes
    requires questionId in questions && questions[questionId].quizId == quizId
    ensures var quiz := quizzes[quizId];
      StoreValid(quizzes[quizId := quiz.(questionIds := RemoveId(quiz.questionIds, questionId))], questions - {questionId})
  {
    var quiz := quizzes[quizId];
    var kept := RemoveId(quiz.questionIds, questionId);
    var quizzes' := quizzes[quizId := quiz.(questionIds := kept)];
    var questions' := questions - {questionId};
    forall i | 0 <= i < |kept| ensures kept[i] in questions' && questions'[kept[i]].quizId == quizId {
      assert kept[i] in quiz.questionIds;
    }
    forall q | q in quizzes' && q != quizId
      ensures forall i | 0 <= i < |quizzes'[q].questionIds| ::
                quizzes'[q].questionIds[i] in questions' && questions'[quizzes'[q].questionIds[i]].quizId == q
    {
    }
    forall k | k in questions' ensures questions'[k].quizId in quizzes' && k in quizzes'[questions'[k].quizId].questionIds {
      if questions[k].quizId == quizId {
        assert k in quiz.questionIds && k != questionId;
      }
    }
  }

  /** An updated question stays filed under its id and with its quiz. */
  lemma UpdateKeepsValid(quizzes: map<string, Quiz>, questions: map<string, Question>, questionId: string, patch: QuestionPatch)
    requires StoreValid(quizzes, questions) && questionId in questions
    ensures StoreValid(quizzes, questions[questionId := PatchQuestion(questions[questionId], patch)])
  {
  }

  // ------------------------------------------------------------ the controller

  class Controller {
    var quizzes: map<string, Quiz>
    var questions: map<string, Question>
    var attempts: map<string, map<string, Attempt>>
    /** The checker of code answers (validateCodeAnswer, quizzes.controller.ts:270-285). */
    const verifyCode: CodeVerifier

    ghost predicate Valid()
      reads this
    {
      StoreValid(quizzes, questions)
    }

    constructor (verifyCode: CodeVerifier)
      ensures Valid() && quizzes == map[] && questions == map[] && attempts == map[]
      ensures this.verifyCode == verifyCode
    {
      quizzes := map[];
      questions := map[];
      attempts := map[];
      this.verifyCode := verifyCode;
    }

    /** createQuiz (quizzes.controller.ts:27-41); `quizId` is the fresh id. */
    method CreateQuiz(role: UserRole, quizId: string, data: QuizData) returns (r: Result<Quiz>)
      requires Valid() && quizId !in quizzes
      modifies this
      ensures Valid() && questions == old(questions) && attempts == old(attempts)
      ensures role != Instructor ==> r == Error(NotInstructor) && quizzes == old(quizzes)
      ensures role == Instructor ==>
        && r == Success(NewQuiz(quizId, data))
        && quizzes == old(quizzes)[quizId := r.value]
    {
      if role != Instructor {
        return Error(NotInstructor);
      }
      NewQuizKeepsValid(quizzes, questions, quizId, data);
      var quiz := NewQuiz(quizId, data);
      quizzes := quizzes[quizId := quiz];
      return Success(quiz);
    }

    /** updateQuiz (quizzes.controller.ts:43-61). */
    method UpdateQuiz(quizId: string, patch: QuizPatch) returns (r: Result<Quiz>)
      requires Valid()
      modifies this
      ensures Valid() && questions == old(questions) && attempts == old(attempts)
      ensures quizId !in old(quizzes) ==> r == Error(NoQuiz) && quizzes == old(quizzes)
      ensures quizId in old(quizzes) ==>
        && r == Success(PatchQuiz(old(quizzes)[quizId], patch))
        && quizzes == old(quizzes)[quizId := r.value]
    {
      if quizId !in quizzes {
        return Error(NoQuiz);
      }
      PatchKeepsValid(quizzes, questions, quizId, patch);
      var quiz := PatchQuiz(quizzes[quizId], patch);
      quizzes := quizzes[quizId := quiz];
      return Success(quiz);
    }

    /** addQuestion (quizzes.controller.ts:63-85); `questionId` is the fresh id. The new
        question is numbered one past the quiz's current count and appended. */
    method AddQuestion(quizId: string, questionId: string, data: QuestionData) returns (r: Result<Question>)
      requires Valid() && questionId !in questions
      modifies this
      ensures Valid() && attempts == old(attempts)
      ensures quizId !in old(quizzes) ==> r == Error(NoQuiz) && quizzes == old(quizzes) && questions == old(questions)
      ensures quizId in old(quizzes) ==>
        var count := |old(quizzes)[quizId].questionIds|;
        && r == Success(Question(questionId, quizId, data.questionType, data.text, data.points, count + 1,
                                 data.choices, data.testCases))
        && questions == old(questions)[questionId := r.value]
        && quizzes == old(quizzes)[quizId := old(quizzes)[quizId].(questionIds := old(quizzes)[quizId].questionIds + [questionId])]
    {
      if quizId !in quizzes {
        return Error(NoQuiz);
      }
      var quiz := quizzes[quizId];
      var question := Question(questionId, quizId, data.questionType, data.text, data.points, |quiz.questionIds| + 1,
                               data.choices, data.testCases);
      AddKeepsValid(quizzes, questions, quizId, question);
      questions := questions[questionId := question];
      quizzes := quizzes[quizId := quiz.(questionIds := quiz.questionIds + [questionId])];
      return Success(question);
    }

    /** updateQuestion (quizzes.controller.ts:87-105). */
    method UpdateQuestion(quizId: string, questionId: string, patch: QuestionPatch) returns (r: Result<Question>)
      requires Valid()
      modifies this
      ensures Valid() && quizzes == old(quizzes) && attempts == old(attempts)
      ensures !(questionId in old(questions) && old(questions)[questionId].quizId == quizId) ==>
        r == Error(NoQuestion) && questions == old(questions)
      ensures questionId in old(questions) && old(questions)[questionId].quizId == quizId ==>
        && r == Success(PatchQuestion(old(questions)[questionId], patch))
        && questions == old(questions)[questionId := r.value]
    {
      if !(questionId in questions && questions[questionId].quizId == quizId) {
        return Error(NoQuestion);
      }
      UpdateKeepsValid(quizzes, questions, questionId, patch);
      var question := PatchQuestion(questions[questionId], patch);
      questions := questions[questionId := question];
      return Success(question);
    }

    /** deleteQuestion (quizzes.controller.ts:107-122). */
    method DeleteQuestion(quizId: string, questionId: string) returns (r: Result<bool>)
      requires Valid()
      modifies this
      ensures Valid() && attempts == old(attempts)
      ensures !(quizId in old(quizzes) && questionId in old(questions) && old(questions)[questionId].quizId == quizId) ==>
        r == Error(NoQuestion) && quizzes == old(quizzes) && questions == old(questions)
      ensures quizId in old(quizzes) && questionId in old(questions) && old(questions)[questionId].quizId == quizId ==>
        && r == Success(true)
        && questions == old(questions) - {questionId}
        && quizzes == old(quizzes)[quizId := old(quizzes)[quizId].(questionIds := RemoveId(old(quizzes)[quizId].questionIds, questionId))]
    {
      if !(quizId in quizzes && questionId in questions && questions[questionId].quizId == quizId) {
        return Error(NoQuestion);
      }
      var quiz := quizzes[quizId];
      var kept := RemoveId(quiz.questionIds, questionId);
      DeleteKeepsValid(quizzes, questions, quizId, questionId);
      quizzes := quizzes[quizId := quiz.(questionIds := kept)];
      questions := questions - {questionId};
      return Success(true);
    }

    /** startQuiz (quizzes.controller.ts:124-158). Any attempt on record, finished or not,
        blocks a new one. */
    method StartQuiz(userId: string, quizId: string, now: int) returns (r: Result<StartInfo>)
      requires Valid()
      modifies this
      ensures Valid() && quizzes == old(quizzes) && questions == old(questions)
      ensures AttemptsAdvance(old(attempts), attempts)
      ensures quizId !in quizzes ==> r == Error(NoQuiz) && attempts == old(attempts)
      ensures quizId in quizzes && quizzes[quizId].status != Published ==>
        r == Error(NotAvailable) && attempts == old(attempts)
      ensures quizId in quizzes && quizzes[quizId].status == Published && AttemptOf(old(attempts), userId, quizId).Some? ==>
        r == Error(AlreadyStarted) && attempts == old(attempts)
      ensures r.Success? <==>
        quizId in quizzes && quizzes[quizId].status == Published && AttemptOf(old(attempts), userId, quizId).None?
      ensures r.Success? ==>
        && r.value == StartInfo(quizId, quizzes[quizId].timeLimit, |quizzes[quizId].questionIds|)
        && var mine := if userId in old(attempts) then old(attempts)[userId] else map[];
           attempts == old(attempts)[userId := mine[quizId := Attempt(now, map[], InProgress, None, None, None)]]
    {
      if quizId !in quizzes {
        return Error(NoQuiz);
      }
      var quiz := quizzes[quizId];
      if quiz.status != Published {
        return Error(NotAvailable);
      }
      var mine := if userId in attempts then attempts[userId] else map[];
      if quizId in mine {
        return Error(AlreadyStarted);
      }
      mine := mine[quizId := Attempt(now, map[], InProgress, None, None, None)];
      attempts := attempts[userId := mine];
      return Success(StartInfo(quizId, quiz.timeLimit, |quiz.questionIds|));
    }

    /** submitQuiz (quizzes.controller.ts:160-220), without the `correctAnswers` ratio. */
    method SubmitQuiz(userId: string, quizId: string, answers: map<string, Answer>, now: int) returns (r: Result<Outcome>)
      requires Valid()
      modifies this
      ensures Valid() && quizzes == old(quizzes) && questions == old(questions)
      ensures AttemptsAdvance(old(attempts), attempts)
      ensures quizId !in quizzes ==> r == Error(NoQuiz) && attempts == old(attempts)
      ensures quizId in quizzes && !(AttemptOf(old(attempts), userId, quizId).Some? && AttemptOf(old(attempts), userId, quizId).value.status == InProgress) ==>
        r == Error(NoActiveAttempt) && attempts == old(attempts)
      ensures quizId in quizzes && AttemptOf(old(attempts), userId, quizId).Some? && AttemptOf(old(attempts), userId, quizId).value.status == InProgress ==>
        var qs := QuestionList(quizzes, questions, quizId);
        var score := ScoreOf(ControllerEarned(qs, answers, verifyCode), AnsweredPoints(qs, answers));
        var passed := Passed(score, quizzes[quizId].passingScore);
        var before := old(attempts)[userId][quizId];
        && r == Success(Outcome(score, passed, |qs|))
        && attempts == old(attempts)[userId := old(attempts)[userId][quizId := before.(
             status := Finished, endTime := Some(now), score := Some(score), passed := Some(passed), answers := answers)]]
    {
      if quizId !in quizzes {
        return Error(NoQuiz);
      }
      var quiz := quizzes[quizId];
      if !(userId in attempts && quizId in attempts[userId] && attempts[userId][quizId].status == InProgress) {
        return Error(NoActiveAttempt);
      }
      var attempt := attempts[userId][quizId];
      var qs := QuestionList(quizzes, questions, quizId);
      var earned, total := ScoreAnswers(qs, answers, verifyCode);
      var score := if total == 0 then NotANumber else Percent(earned as real / total as real * 100.0);
      var passed := score.Percent? && score.value >= quiz.passingScore;
      assert score == ScoreOf(earned, total) && passed == Passed(score, quiz.passingScore);
      attempt := attempt.(status := Finished, endTime := Some(now), score := Some(score), passed := Some(passed),
                          answers := answers);
      FinishingAdvances(attempts, userId, quizId, attempt);
      attempts := attempts[userId := attempts[userId][quizId := attempt]];
      return Success(Outcome(score, passed, |qs|));
    }

    /** getQuizAttempts (quizzes.controller.ts:242-255). */
    method GetQuizAttempts(userId: string, quizId: string) returns (a: Option<Attempt>)
      ensures a.Some? <==> userId in attempts && quizId in attempts[userId]
      ensures a.Some? ==> a.value == attempts[userId][quizId]
    {
      if userId in attempts && quizId in attempts[userId] {
        return Some(attempts[userId][quizId]);
      }
      return None;
    }
  }

  /** A started attempt is in progress with no answers; submitting it finishes it, after
      which a second submission finds no active attempt and a second start is refused. */
  lemma AttemptLifecycle(attempts: map<string, map<string, Attempt>>, userId: string, quizId: string, now: int,
                         answers: map<string, Answer>, score: Score, passed: bool, later: int)
    requires AttemptOf(attempts, userId, quizId).None?
    ensures var mine := if userId in attempts then attempts[userId] else map[];
      var started := attempts[userId := mine[quizId := Attempt(now, map[], InProgress, None, None, None)]];
      var a := AttemptOf(started, userId, quizId);
      && a == Some(Attempt(now, map[], InProgress, None, None, None))
      && var finished := started[userId := started[userId][quizId := a.value.(
           status := Finished, endTime := Some(later), score := Some(score), passed := Some(passed), answers := answers)]];
         && AttemptOf(finished, userId, quizId).Some?
         && AttemptOf(finished, userId, quizId).value.status != InProgress
         && AttemptsAdvance(attempts, started) && AttemptsAdvance(started, finished)
         && forall u, q | (u, q) != (userId, quizId) :: AttemptOf(finished, u, q) == AttemptOf(attempts, u, q)
  {
  }
}
