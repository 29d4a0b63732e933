/** The live quiz session engine (backend/src/quizzes/gateways/quiz.gateway.ts).
    Each socket handler is one atomic step over two registries: `activeSessions`
    (quiz id to session) and `userSockets` (user id to socket id). */
module QuizGateway {

  import opened Base
  import opened QuizEntities

  /** One participant of a session; times are in milliseconds, timeRemaining in seconds. */
  datatype Participant = Participant(
    socketId: string,
    answers: map<string, Answer>,
    startTime: int,
    timeRemaining: real)

  /** A live session. The quiz is the definition loaded when the session was created. */
  datatype Session = Session(quizId: string, participants: map<string, Participant>, quiz: QuizDefinition)

  /** How the signature check of a submitted answer ended. */
  datatype SignatureCheck = Verified | Rejected | Threw

  datatype JoinReply = JoinReply(participantCount: nat, timeRemaining: real)

  datatype SubmitReply = SubmitError(message: string) | Accepted(isComplete: bool, score: Option<Score>)

  datatype HeartbeatReply = HeartbeatError(message: string) | Remaining(timeRemaining: real)

  /** The `quizCompleted` event sent to the participant's socket. */
  datatype QuizCompleted = QuizCompleted(socketId: string, score: Score, passed: bool)

  /** The registry after one handler, what the handler returns, and the completion event it emits. */
  datatype Step<R> = Step(sessions: map<string, Session>, reply: R, notice: Option<QuizCompleted>)

  const NotInSession := "Not in session"
  const InvalidSignature := "Invalid answer signature"
  const VerificationFailed := "Answer verification failed"

  // ---------------------------------------------------------------- scoring

  /** validateChoiceAnswer (quiz.gateway.ts:348-360): the answer's shape, not the
      question's type, selects the list or the single form of the check. */
  predicate ChoiceAccepted(question: Question, answer: Answer)
  {
    match answer
    case Several(ids) => ListMatchesCorrect(question, ids)
    case Single(id) => SingleIsCorrect(question, id)
  }

  /** Whether calculateScore awards a question its points: it has a truthy recorded
      answer, and the answer passes the check for its type. True/false questions are
      missing from the switch and never earn. */
  predicate Earns(question: Question, answers: map<string, Answer>, verify: CodeVerifier)
  {
    && question.id in answers
    && Truthy(answers[question.id])
    && match question.questionType
       case MultipleChoice => ChoiceAccepted(question, answers[question.id])
       case SingleChoice => ChoiceAccepted(question, answers[question.id])
       case Code => verify(question, answers[question.id])
       case TrueFalse => false
  }

  /** The sum of the points of the questions that earn. */
  function EarnedPoints(questions: seq<Question>, answers: map<string, Answer>, verify: CodeVerifier): nat
  {
    if questions == [] then 0
    else
      var last := questions[|questions| - 1];
      EarnedPoints(questions[..|questions| - 1], answers, verify) + (if Earns(last, answers, verify) then last.points else 0)
  }

  /** The points a participant could still earn: questions with a truthy answer that
      are not true/false questions. */
  function EligiblePoints(questions: seq<Question>, answers: map<string, Answer>): nat
  {
    if questions == [] then 0
    else
      var last := questions[|questions| - 1];
      EligiblePoints(questions[..|questions| - 1], answers)
        + (if last.id in answers && Truthy(answers[last.id]) && last.questionType != TrueFalse then last.points else 0)
  }

  /** Only answered questions of a scoring type can earn, so earned <= eligible <= total. */
  lemma {:induction false} EarnedWithinEligible(questions: seq<Question>, answers: map<string, Answer>, verify: CodeVerifier)
    ensures EarnedPoints(questions, answers, verify) <= EligiblePoints(questions, answers) <= TotalPoints(questions)
  {
    if questions != [] {
      EarnedWithinEligible(questions[..|questions| - 1], answers, verify);
    }
  }

  /** The score calculateScore returns for a participant's answers. */
  function ParticipantScore(quiz: QuizDefinition, answers: map<string, Answer>, verify: CodeVerifier): Score
  {
    ScoreOf(EarnedPoints(quiz.questions, answers, verify), TotalPoints(quiz.questions))
  }

  /** The score is NaN exactly for a quiz worth 0 points, and otherwise lies in [0, 100]. */
  lemma ParticipantScoreInRange(quiz: QuizDefinition, answers: map<string, Answer>, verify: CodeVerifier)
    ensures ParticipantScore(quiz, answers, verify).NotANumber? <==> TotalPoints(quiz.questions) == 0
    ensures ParticipantScore(quiz, answers, verify).Percent? ==>
              0.0 <= ParticipantScore(quiz, answers, verify).value <= 100.0
  {
    EarnedWithinEligible(quiz.questions, answers, verify);
    if TotalPoints(quiz.questions) > 0 {
      ScoreInRange(EarnedPoints(quiz.questions, answers, verify), TotalPoints(quiz.questions));
    }
  }

  /** calculateScore (quiz.gateway.ts:320-346): one pass over the questions accumulating
      the total and the earned points, then `(earned / total) * 100`. */
  method CalculateScore(quiz: QuizDefinition, answers: map<string, Answer>, verify: CodeVerifier) returns (score: Score)
    ensures score == ParticipantScore(quiz, answers, verify)
  {
    var questions := quiz.questions;
    var totalPoints: nat := 0;
    var earnedPoints: nat := 0;
    for i := 0 to |questions|
      invariant totalPoints == TotalPoints(questions[..i])
      invariant earnedPoints == EarnedPoints(questions[..i], answers, verify)
    {
      var question := questions[i];
      assert questions[..i + 1][..i] == questions[..i];
      totalPoints := totalPoints + question.points;
      if question.id in answers && Truthy(answers[question.id]) {
        var answer := answers[question.id];
        match question.questionType {
          case MultipleChoice =>
            if ChoiceAccepted(question, answer) { earnedPoints := earnedPoints + question.points; }
          case SingleChoice =>
            if ChoiceAccepted(question, answer) { earnedPoints := earnedPoints + question.points; }
          case Code =>
            if verify(question, answer) { earnedPoints := earnedPoints + question.points; }
          case TrueFalse =>
        }
      }
    }
    assert questions[..|questions|] == questions;
    if totalPoints == 0 {
      score := NotANumber;
    } else {
      score := Percent(earnedPoints as real / totalPoints as real * 100.0);
    }
  }

  /** checkQuizCompletion (quiz.gateway.ts:316-318): every question id has a recorded
      answer (falsy answers included). */
  predicate AllAnswered(quiz: QuizDefinition, answers: map<string, Answer>)
  {
    forall i | 0 <= i < |quiz.questions| :: quiz.questions[i].id in answers
  }

  /** Recording one more answer completes the quiz exactly when every other question
      was already answered; a complete answer map stays complete. */
  lemma AllAnsweredAfterRecording(quiz: QuizDefinition, answers: map<string, Answer>, questionId: string, answer: Answer)
    ensures AllAnswered(quiz, answers[questionId := answer]) <==>
              forall i | 0 <= i < |quiz.questions| && quiz.questions[i].id != questionId :: quiz.questions[i].id in answers
    ensures AllAnswered(quiz, answers) ==> AllAnswered(quiz, answers[questionId := answer])
  {
  }

  // ------------------------------------------------------------------ timer

  /** `Math.max(0, timeLimit * 60 - elapsed)`, elapsed in seconds since the join. */
  function TimeRemaining(timeLimit: nat, startTime: int, now: int): (r: real)
    ensures r >= 0.0
    ensures r <= (timeLimit * 60) as real || now < startTime
  {
    var left := (timeLimit * 60) as real - (now - startTime) as real / 1000.0;
    if left > 0.0 then left else 0.0
  }

  /** Time remaining never increases as the clock advances, and reaches 0 once the limit has passed. */
  lemma TimeRemainingNonIncreasing(timeLimit: nat, startTime: int, now: int, later: int)
    requires now <= later
    ensures TimeRemaining(timeLimit, startTime, later) <= TimeRemaining(timeLimit, startTime, now)
    ensures later - startTime >= timeLimit * 60000 ==> TimeRemaining(timeLimit, startTime, later) == 0.0
  {
  }

  // ------------------------------------------------------ registry invariant

  /** Every session is filed under its own quiz id, is never empty, and no participant
      has negative time remaining. */
  ghost predicate WellFormed(sessions: map<string, Session>)
  {
    forall q | q in sessions ::
      && sessions[q].quizId == q
      && |sessions[q].participants| > 0
      && forall u | u in sessions[q].participants :: sessions[q].participants[u].timeRemaining >= 0.0
  }

  // ------------------------------------------------------------ transitions

  /** handleJoinQuiz (quiz.gateway.ts:147-164): reuse or create the session, then (re)set
      the user's participant entry. */
  function Joined(sessions: map<string, Session>, userId: string, socketId: string, quizId: string,
                  quiz: QuizDefinition, now: int): map<string, Session>
  {
    var session := if quizId in sessions then sessions[quizId] else Session(quizId, map[], quiz);
    var entry := Participant(socketId, map[], now, (session.quiz.timeLimit * 60) as real);
    sessions[quizId := session.(participants := session.participants[userId := entry])]
  }

  /** Removing a participant (quiz.gateway.ts:278-280 and 309-313): the session is deleted
      exactly when no participant is left. */
  function Without(sessions: map<string, Session>, quizId: string, userId: string): map<string, Session>
  {
    if quizId !in sessions then sessions
    else
      var rest := sessions[quizId].participants - {userId};
      if |rest| == 0 then sessions - {quizId}
      else sessions[quizId := sessions[quizId].(participants := rest)]
  }

  /** `participant.answers.set(questionId, answer)`. */
  function Recorded(sessions: map<string, Session>, quizId: string, userId: string, questionId: string,
                    answer: Answer): map<string, Session>
    requires quizId in sessions && userId in sessions[quizId].participants
  {
    var session := sessions[quizId];
    var p := session.participants[userId];
    sessions[quizId := session.(participants := session.participants[userId := p.(answers := p.answers[questionId := answer])])]
  }

  /** The `quizCompleted` event of handleQuizCompletion (quiz.gateway.ts:297-307): sent when
      the session exists and the user has a (non-empty) socket id on record. */
  function CompletionNotice(sessions: map<string, Session>, sockets: map<string, string>, quizId: string,
                            userId: string, score: Score): Option<QuizCompleted>
  {
    if quizId in sessions && userId in sockets && sockets[userId] != "" then
      Some(QuizCompleted(sockets[userId], score, Passed(score, sessions[quizId].quiz.passingScore)))
    else None
  }

  /** handleSubmitAnswer (quiz.gateway.ts:189-236) with the signature check as an input. */
  function SubmitStep(sessions: map<string, Session>, sockets: map<string, string>, userId: string,
                      quizId: string, questionId: string, answer: Answer, check: SignatureCheck,
                      verify: CodeVerifier): Step<SubmitReply>
  {
    if !(quizId in sessions && userId in sessions[quizId].participants) then
      Step(sessions, SubmitError(NotInSession), None)
    else if check == Rejected then Step(sessions, SubmitError(InvalidSignature), None)
    else if check == Threw then Step(sessions, SubmitError(VerificationFailed), None)
    else
      var recorded := Recorded(sessions, quizId, userId, questionId, answer);
      var answers := recorded[quizId].participants[userId].answers;
      var quiz := recorded[quizId].quiz;
      if AllAnswered(quiz, answers) then
        var score := ParticipantScore(quiz, answers, verify);
        Step(Without(recorded, quizId, userId), Accepted(true, Some(score)),
             CompletionNotice(recorded, sockets, quizId, userId, score))
      else Step(recorded, Accepted(false, None), None)
  }

  /** handleHeartbeat (quiz.gateway.ts:247-264), with handleTimeUp run to completion when
      the time is up. */
  function HeartbeatStep(sessions: map<string, Session>, sockets: map<string, string>, userId: string,
                         quizId: string, now: int, verify: CodeVerifier): Step<HeartbeatReply>
  {
    if !(quizId in sessions && userId in sessions[quizId].participants) then
      Step(sessions, HeartbeatError(NotInSession), None)
    else
      var session := sessions[quizId];
      var p := session.participants[userId];
      var left := TimeRemaining(session.quiz.timeLimit, p.startTime, now);
      var ticked := sessions[quizId := session.(participants := session.participants[userId := p.(timeRemaining := left)])];
      if left == 0.0 then
        var score := ParticipantScore(session.quiz, p.answers, verify);
        Step(Without(ticked, quizId, userId), Remaining(left), CompletionNotice(ticked, sockets, quizId, userId, score))
      else Step(ticked, Remaining(left), None)
  }

  /** The registry after handleDisconnect has visited the sessions of `order`, in that
      order: each visited session that still held the user has lost them, and is gone if
      that emptied it. */
  function Disconnected(sessions: map<string, Session>, userId: string, order: seq<string>): map<string, Session>
    decreases |order|
  {
    if order == [] then sessions
    else
      var before := Disconnected(sessions, userId, order[..|order| - 1]);
      var q := order[|order| - 1];
      if q in before && userId in before[q].participants then Without(before, q, userId) else before
  }

  /** The `participantLeft` counts handleDisconnect has emitted after visiting `order`. */
  function LeftAlong(sessions: map<string, Session>, userId: string, order: seq<string>): map<string, nat>
    decreases |order|
  {
    if order == [] then map[]
    else
      var before := Disconnected(sessions, userId, order[..|order| - 1]);
      var notices := LeftAlong(sessions, userId, order[..|order| - 1]);
      var after := Disconnected(sessions, userId, order);
      var q := order[|order| - 1];
      if q in before && userId in before[q].participants && q in after then notices[q := |after[q].participants|]
      else notices
  }

  // ------------------------------------------------------- the properties

  /** Joining creates the session for an unknown quiz id and reuses a known one; the user
      is then a participant with no answers and the full time budget, a re-join replaces
      the earlier entry rather than adding one, and no other session changes. */
  lemma JoinCreatesOrReuses(sessions: map<string, Session>, userId: string, socketId: string, quizId: string,
                            quiz: QuizDefinition, now: int)
    ensures var after := Joined(sessions, userId, socketId, quizId, quiz, now);
      && quizId in after
      && after[quizId].quiz == (if quizId in sessions then sessions[quizId].quiz else quiz)
      && after[quizId].participants.Keys
           == (if quizId in sessions then sessions[quizId].participants.Keys else {}) + {userId}
      && |after[quizId].participants|
           == (if quizId in sessions then |sessions[quizId].participants - {userId}| else 0) + 1
      && after[quizId].participants[userId].answers == map[]
      && after[quizId].participants[userId].timeRemaining == (after[quizId].quiz.timeLimit * 60) as real
      && forall q | q != quizId :: (q in after <==> q in sessions) && (q in after ==> after[q] == sessions[q])
  {
    var before := if quizId in sessions then sessions[quizId].participants else map[];
    var after := Joined(sessions, userId, socketId, quizId, quiz, now)[quizId].participants;
    assert after == before[userId := after[userId]];
    JoinedSize(before, userId, after[userId]);
  }

  /** Setting a user's entry adds one participant unless the user was already there. */
  lemma JoinedSize(participants: map<string, Participant>, userId: string, entry: Participant)
    ensures |participants[userId := entry]| == |participants - {userId}| + 1
  {
    var after := participants[userId := entry];
    assert after.Keys == (participants - {userId}).Keys + {userId};
    assert userId !in (participants - {userId}).Keys;
  }

  lemma JoinKeepsWellFormed(sessions: map<string, Session>, userId: string, socketId: string, quizId: string,
                            quiz: QuizDefinition, now: int)
    requires WellFormed(sessions)
    ensures WellFormed(Joined(sessions, userId, socketId, quizId, quiz, now))
  {
  }

  /** Removing a participant deletes the session exactly when it becomes empty; otherwise the
      session keeps every other participant unchanged. Other sessions are untouched. */
  lemma WithoutRemoves(sessions: map<string, Session>, quizId: string, userId: string)
    requires quizId in sessions
    ensures var after := Without(sessions, quizId, userId);
      && (quizId !in after <==> sessions[quizId].participants.Keys <= {userId})
      && (quizId in after ==> after[quizId].participants == sessions[quizId].participants - {userId})
      && (quizId in after ==> after[quizId].quiz == sessions[quizId].quiz)
      && forall q | q != quizId :: (q in after <==> q in sessions) && (q in after ==> after[q] == sessions[q])
  {
    var rest := sessions[quizId].participants - {userId};
    if exists u :: u in sessions[quizId].participants && u != userId {
      var u :| u in sessions[quizId].participants && u != userId;
      assert u in rest;
    } else {
      assert rest.Keys == {};
    }
  }

  lemma WithoutKeepsWellFormed(sessions: map<string, Session>, quizId: string, userId: string)
    requires WellFormed(sessions)
    ensures WellFormed(Without(sessions, quizId, userId))
  {
  }

  /** A submission that fails the membership or signature check changes nothing. */
  lemma SubmitRejectionsChangeNothing(sessions: map<string, Session>, sockets: map<string, string>, userId: string,
                                      quizId: string, questionId: string, answer: Answer, check: SignatureCheck,
                                      verify: CodeVerifier)
    ensures var step := SubmitStep(sessions, sockets, userId, quizId, questionId, answer, check, verify);
      step.reply.SubmitError? <==> !(quizId in sessions && userId in sessions[quizId].participants) || check != Verified
    ensures var step := SubmitStep(sessions, sockets, userId, quizId, questionId, answer, check, verify);
      step.reply.SubmitError? ==> step.sessions == sessions && step.notice == None
    ensures var step := SubmitStep(sessions, sockets, userId, quizId, questionId, answer, check, verify);
      && (!(quizId in sessions && userId in sessions[quizId].participants) ==> step.reply == SubmitError(NotInSession))
      && ((quizId in sessions && userId in sessions[quizId].participants && check == Rejected)
           ==> step.reply == SubmitError(InvalidSignature))
      && ((quizId in sessions && userId in sessions[quizId].participants && check == Threw)
           ==> step.reply == SubmitError(VerificationFailed))
  {
  }

  /** The recorded answer overwrites any earlier one for the question and leaves the others;
      until the quiz is complete the participant stays, with these answers. */
  lemma SubmitOverwrites(sessions: map<string, Session>, sockets: map<string, string>, userId: string,
                         quizId: string, questionId: string, answer: Answer, verify: CodeVerifier)
    requires quizId in sessions && userId in sessions[quizId].participants
    ensures var before := sessions[quizId].participants[userId].answers;
      var step := SubmitStep(sessions, sockets, userId, quizId, questionId, answer, Verified, verify);
      step.reply.Accepted? && !step.reply.isComplete ==>
        && quizId in step.sessions && userId in step.sessions[quizId].participants
        && var after := step.sessions[quizId].participants[userId].answers;
           && after.Keys == before.Keys + {questionId}
           && after[questionId] == answer
           && forall k | k in before && k != questionId :: after[k] == before[k]
  {
  }

  /** A verified submission completes the quiz exactly when every question of the quiz then
      has an answer; completion returns the score of the answers on record and removes
      the participant, deleting the session if it was the last one. */
  lemma SubmitCompletesIffAllAnswered(sessions: map<string, Session>, sockets: map<string, string>, userId: string,
                                      quizId: string, questionId: string, answer: Answer, verify: CodeVerifier)
    requires quizId in sessions && userId in sessions[quizId].participants
    ensures var session := sessions[quizId];
      var answers := session.participants[userId].answers[questionId := answer];
      var step := SubmitStep(sessions, sockets, userId, quizId, questionId, answer, Verified, verify);
      && step.reply.Accepted?
      && (step.reply.isComplete <==> AllAnswered(session.quiz, answers))
      && (step.reply.isComplete ==>
            && step.reply.score == Some(ParticipantScore(session.quiz, answers, verify))
            && (quizId in step.sessions ==> userId !in step.sessions[quizId].participants)
            && (quizId !in step.sessions <==> session.participants.Keys <= {userId}))
  {
    var recorded := Recorded(sessions, quizId, userId, questionId, answer);
    WithoutRemoves(recorded, quizId, userId);
  }

  /** The verified path of handleSubmitAnswer, spelled out. */
  lemma SubmitAccepted(sessions: map<string, Session>, sockets: map<string, string>, userId: string,
                       quizId: string, questionId: string, answer: Answer, verify: CodeVerifier)
    requires quizId in sessions && userId in sessions[quizId].participants
    ensures var session := sessions[quizId];
      var p := session.participants[userId];
      var p' := p.(answers := p.answers[questionId := answer]);
      var recorded := sessions[quizId := session.(participants := session.participants[userId := p'])];
      var score := ParticipantScore(session.quiz, p'.answers, verify);
      SubmitStep(sessions, sockets, userId, quizId, questionId, answer, Verified, verify)
        == if AllAnswered(session.quiz, p'.answers)
           then Step(Without(recorded, quizId, userId), Accepted(true, Some(score)),
                     CompletionNotice(recorded, sockets, quizId, userId, score))
           else Step(recorded, Accepted(false, None), None)
  {
  }

  lemma SubmitKeepsWellFormed(sessions: map<string, Session>, sockets: map<string, string>, userId: string,
                              quizId: string, questionId: string, answer: Answer, check: SignatureCheck,
                              verify: CodeVerifier)
    requires WellFormed(sessions)
    ensures WellFormed(SubmitStep(sessions, sockets, userId, quizId, questionId, answer, check, verify).sessions)
  {
    if quizId in sessions && userId in sessions[quizId].participants && check == Verified {
      var recorded := Recorded(sessions, quizId, userId, questionId, answer);
      RecordedKeepsWellFormed(sessions, quizId, userId, questionId, answer);
      WithoutKeepsWellFormed(recorded, quizId, userId);
      SubmitAccepted(sessions, sockets, userId, quizId, questionId, answer, verify);
    }
  }

  lemma RecordedKeepsWellFormed(sessions: map<string, Session>, quizId: string, userId: string, questionId: string,
                                answer: Answer)
    requires WellFormed(sessions)
    requires quizId in sessions && userId in sessions[quizId].participants
    ensures WellFormed(Recorded(sessions, quizId, userId, questionId, answer))
  {
  }

  lemma HeartbeatKeepsWellFormed(sessions: map<string, Session>, sockets: map<string, string>, userId: string,
                                 quizId: string, now: int, verify: CodeVerifier)
    requires WellFormed(sessions)
    ensures WellFormed(HeartbeatStep(sessions, sockets, userId, quizId, now, verify).sessions)
  {
    if quizId in sessions && userId in sessions[quizId].participants {
      var session := sessions[quizId];
      var p := session.participants[userId];
      var left := TimeRemaining(session.quiz.timeLimit, p.startTime, now);
      var ticked := sessions[quizId := session.(participants := session.participants[userId := p.(timeRemaining := left)])];
      assert WellFormed(ticked);
      WithoutKeepsWellFormed(ticked, quizId, userId);
    }
  }

  /** A heartbeat that finds the time used up completes the participant, with the score of
      the answers on record; the next heartbeat then finds them gone, so completion by
      timeout fires at most once. */
  lemma TimeoutCompletesOnce(sessions: map<string, Session>, sockets: map<string, string>, userId: string,
                             quizId: string, now: int, later: int, verify: CodeVerifier)
    requires quizId in sessions && userId in sessions[quizId].participants
    requires HeartbeatStep(sessions, sockets, userId, quizId, now, verify).reply == Remaining(0.0)
    ensures var first := HeartbeatStep(sessions, sockets, userId, quizId, now, verify);
      var second := HeartbeatStep(first.sessions, sockets, userId, quizId, later, verify);
      && (quizId in first.sessions ==> userId !in first.sessions[quizId].participants)
      && (first.notice.Some? ==>
            first.notice.value.score == ParticipantScore(sessions[quizId].quiz, sessions[quizId].participants[userId].answers, verify))
      && second.reply == HeartbeatError(NotInSession)
      && second.sessions == first.sessions && second.notice == None
  {
    var session := sessions[quizId];
    var p := session.participants[userId];
    var ticked := sessions[quizId := session.(participants := session.participants[userId := p.(timeRemaining := 0.0)])];
    WithoutRemoves(ticked, quizId, userId);
  }

  /** Between two heartbeats of the same participant the reported time never goes up. */
  lemma HeartbeatsNonIncreasing(sessions: map<string, Session>, sockets: map<string, string>, userId: string,
                                quizId: string, now: int, later: int, verify: CodeVerifier)
    requires now <= later
    ensures var first := HeartbeatStep(sessions, sockets, userId, quizId, now, verify);
      var second := HeartbeatStep(first.sessions, sockets, userId, quizId, later, verify);
      first.reply.Remaining? && second.reply.Remaining? ==> second.reply.timeRemaining <= first.reply.timeRemaining
  {
    var first := HeartbeatStep(sessions, sockets, userId, quizId, now, verify);
    if first.reply.Remaining? && quizId in first.sessions && userId in first.sessions[quizId].participants {
      var session := sessions[quizId];
      var p := session.participants[userId];
      var left := TimeRemaining(session.quiz.timeLimit, p.startTime, now);
      assert left != 0.0;
      assert first.sessions[quizId].participants[userId].startTime == p.startTime;
      assert first.sessions[quizId].quiz == session.quiz;
      TimeRemainingNonIncreasing(session.quiz.timeLimit, p.startTime, now, later);
    }
  }

  /** What visiting the sessions of `order` (each at most once) does to one key `k`: the
      session is dropped exactly when it was visited and held only the user, a surviving
      visited session has lost the user and nothing else, and an unvisited one is untouched. */
  lemma {:induction false} DisconnectedAt(sessions: map<string, Session>, userId: string, order: seq<string>, k: string)
    requires Distinct(order)
    ensures var after := Disconnected(sessions, userId, order);
      && (k in after <==> k in sessions
                          && !(k in order && userId in sessions[k].participants && sessions[k].participants.Keys <= {userId}))
      && (k in after && k !in order ==> after[k] == sessions[k])
      && (k in after && k in order ==> after[k] == sessions[k].(participants := sessions[k].participants - {userId}))
    decreases |order|
  {
    if order != [] {
      var init := order[..|order| - 1];
      var q := order[|order| - 1];
      LastVisit(order);
      DisconnectedAt(sessions, userId, init, k);
      var before := Disconnected(sessions, userId, init);
      if k == q {
        if q in before {
          WithoutRemoves(before, q, userId);
          if userId !in sessions[k].participants {
            assert sessions[k].participants - {userId} == sessions[k].participants;
          }
        }
      } else {
        WithoutOther(before, q, userId, k);
      }
    }
  }

  /** A `participantLeft` notice is emitted for `k` exactly when `k` was visited, held the
      user and survives; it carries the remaining count. */
  lemma {:induction false} LeftAlongAt(sessions: map<string, Session>, userId: string, order: seq<string>, k: string)
    requires Distinct(order)
    ensures var after := Disconnected(sessions, userId, order);
      var left := LeftAlong(sessions, userId, order);
      && (k in left <==> k in order && k in after && k in sessions && userId in sessions[k].participants)
      && (k in left ==> k in after && left[k] == |after[k].participants|)
    decreases |order|
  {
    if order != [] {
      var init := order[..|order| - 1];
      var q := order[|order| - 1];
      LastVisit(order);
      LeftAlongAt(sessions, userId, init, k);
      DisconnectedAt(sessions, userId, init, k);
      DisconnectedAt(sessions, userId, order, k);
      if k != q {
        WithoutOther(Disconnected(sessions, userId, init), q, userId, k);
      }
    }
  }

  /** The last key of a visiting order without repeats is not among the earlier ones. */
  lemma LastVisit(order: seq<string>)
    requires Distinct(order) && order != []
    ensures var init := order[..|order| - 1];
      && Distinct(init)
      && order[|order| - 1] !in init
      && forall x :: x in order <==> x in init || x == order[|order| - 1]
  {
    var init := order[..|order| - 1];
    assert order == init + [order[|order| - 1]];
    forall i | 0 <= i < |init| ensures init[i] != order[|order| - 1] {
      assert init[i] == order[i];
    }
  }

  /** handleDisconnect takes the user out of every session, whatever order it visits them
      in: a session that held only the user is deleted, every other one keeps its other
      participants, and a notice with the remaining count is emitted exactly for the
      sessions that held the user and survive. */
  lemma DisconnectRemovesEverywhere(sessions: map<string, Session>, userId: string, order: seq<string>)
    requires Distinct(order) && Elements(order) == sessions.Keys
    ensures var after := Disconnected(sessions, userId, order);
      var left := LeftAlong(sessions, userId, order);
      && after.Keys <= sessions.Keys
      && (forall q | q in after :: userId !in after[q].participants)
      && (forall q | q in sessions :: q !in after <==> userId in sessions[q].participants && sessions[q].participants.Keys <= {userId})
      && (forall q | q in after :: after[q].participants == sessions[q].participants - {userId} && after[q].quiz == sessions[q].quiz)
      && (forall q | q in sessions :: q in left <==> q in after && userId in sessions[q].participants)
      && (forall q | q in left :: q in after && left[q] == |after[q].participants|)
  {
    var after := Disconnected(sessions, userId, order);
    var left := LeftAlong(sessions, userId, order);
    forall q | q in after || q in sessions || q in left
      ensures q in after ==> q in sessions && after[q] == sessions[q].(participants := sessions[q].participants - {userId})
      ensures q in sessions ==> (q !in after <==> userId in sessions[q].participants && sessions[q].participants.Keys <= {userId})
      ensures q in sessions ==> (q in left <==> q in after && userId in sessions[q].participants)
      ensures q in left ==> q in after && left[q] == |after[q].participants|
    {
      DisconnectedAt(sessions, userId, order, q);
      LeftAlongAt(sessions, userId, order, q);
      if q in after && q !in order {
        assert false;
      }
    }
  }

  /** The order in which handleDisconnect visits the sessions does not matter. */
  lemma DisconnectOrderIrrelevant(sessions: map<string, Session>, userId: string, order: seq<string>, other: seq<string>)
    requires Distinct(order) && Elements(order) == sessions.Keys
    requires Distinct(other) && Elements(other) == sessions.Keys
    ensures Disconnected(sessions, userId, order) == Disconnected(sessions, userId, other)
    ensures LeftAlong(sessions, userId, order) == LeftAlong(sessions, userId, other)
  {
    var after, after' := Disconnected(sessions, userId, order), Disconnected(sessions, userId, other);
    var left, left' := LeftAlong(sessions, userId, order), LeftAlong(sessions, userId, other);
    forall q ensures (q in after <==> q in after') && (q in after ==> after[q] == after'[q]) {
      DisconnectedAt(sessions, userId, order, q);
      DisconnectedAt(sessions, userId, other, q);
    }
    assert after == after';
    forall q ensures (q in left <==> q in left') && (q in left ==> left[q] == left'[q]) {
      LeftAlongAt(sessions, userId, order, q);
      LeftAlongAt(sessions, userId, other, q);
    }
  }

  lemma {:induction false} DisconnectKeepsWellFormed(sessions: map<string, Session>, userId: string, order: seq<string>)
    requires WellFormed(sessions)
    ensures WellFormed(Disconnected(sessions, userId, order))
    decreases |order|
  {
    if order != [] {
      var init := order[..|order| - 1];
      DisconnectKeepsWellFormed(sessions, userId, init);
      WithoutKeepsWellFormed(Disconnected(sessions, userId, init), order[|order| - 1], userId);
    }
  }

  /** Appending an unvisited key keeps a visiting order free of repeats. */
  lemma VisitNext(order: seq<string>, q: string)
    requires Distinct(order) && q !in order
    ensures Distinct(order + [q]) && Elements(order + [q]) == Elements(order) + {q}
  {
  }

  /** Visiting one more session, as one step of handleDisconnect's loop. */
  lemma VisitStep(sessions: map<string, Session>, userId: string, order: seq<string>, q: string)
    ensures var now := Disconnected(sessions, userId, order);
      var next := Disconnected(sessions, userId, order + [q]);
      && next == (if q in now && userId in now[q].participants then Without(now, q, userId) else now)
      && LeftAlong(sessions, userId, order + [q])
           == if q in now && userId in now[q].participants && q in next
              then LeftAlong(sessions, userId, order)[q := |next[q].participants|]
              else LeftAlong(sessions, userId, order)
  {
    assert (order + [q])[..|order|] == order;
  }

  /** Moving one key from the unvisited to the visited keys. */
  lemma VisitOne(keys: set<string>, todo: set<string>, q: string)
    requires q in todo && todo <= keys
    ensures todo - {q} <= keys && keys - (todo - {q}) == (keys - todo) + {q}
    ensures |todo - {q}| < |todo|
  {
  }

  /** Removing a participant from one session leaves every other key alone. */
  lemma WithoutOther(sessions: map<string, Session>, quizId: string, userId: string, k: string)
    requires k != quizId
    ensures k in Without(sessions, quizId, userId) <==> k in sessions
    ensures k in sessions ==> Without(sessions, quizId, userId)[k] == sessions[k]
  {
  }

  // -------------------------------------------------------------- the gateway

  class Gateway {
    var activeSessions: map<string, Session>
    var userSockets: map<string, string>
    /** The checker of code answers (validateCodeAnswer, quiz.gateway.ts:362-377). */
    const verifyCode: CodeVerifier

    ghost predicate Valid()
      reads this
    {
      WellFormed(activeSessions)
    }

    constructor (verifyCode: CodeVerifier)
      ensures Valid() && activeSessions == map[] && userSockets == map[] && this.verifyCode == verifyCode
    {
      activeSessions := map[];
      userSockets := map[];
      this.verifyCode := verifyCode;
    }

    /** handleConnection (quiz.gateway.ts:77-123) without the key exchange, whose outcome is
        an input: a connection without a user id, or whose handshake fails, is dropped. */
    method HandleConnection(userId: string, socketId: string, handshakeOk: bool)
      requires Valid()
      modifies this
      ensures Valid() && activeSessions == old(activeSessions)
      ensures userSockets == if userId != "" && handshakeOk then old(userSockets)[userId := socketId] else old(userSockets)
    {
      if userId == "" {
        return;
      }
      if handshakeOk {
        userSockets := userSockets[userId := socketId];
      }
    }

    /** handleJoinQuiz (quiz.gateway.ts:139-179). `quiz` is the definition the quiz store
        returns; it is used only when the session is created. */
    method HandleJoinQuiz(userId: string, socketId: string, quizId: string, quiz: QuizDefinition, now: int)
      returns (reply: JoinReply)
      requires Valid()
      modifies this
      ensures Valid() && userSockets == old(userSockets)
      ensures activeSessions == Joined(old(activeSessions), userId, socketId, quizId, quiz, now)
      ensures reply.participantCount == |activeSessions[quizId].participants|
      ensures reply.timeRemaining == activeSessions[quizId].participants[userId].timeRemaining
    {
      JoinKeepsWellFormed(activeSessions, userId, socketId, quizId, quiz, now);
      // A new session is filed under the quiz id with the participant already in it: the
      // source stores the session object first and then adds to it, to the same effect.
      var session: Session;
      if quizId in activeSessions {
        session := activeSessions[quizId];
      } else {
        session := Session(quizId, map[], quiz);
      }
      var participant := Participant(socketId, map[], now, (session.quiz.timeLimit * 60) as real);
      session := session.(participants := session.participants[userId := participant]);
      activeSessions := activeSessions[quizId := session];
      reply := JoinReply(|session.participants|, session.participants[userId].timeRemaining);
    }

    /** handleSubmitAnswer (quiz.gateway.ts:181-237) with the signature check's outcome as an
        input; the score signature is not modelled. */
    method HandleSubmitAnswer(userId: string, quizId: string, questionId: string, answer: Answer, check: SignatureCheck)
      returns (reply: SubmitReply, notice: Option<QuizCompleted>)
      requires Valid()
      modifies this
      ensures Valid() && userSockets == old(userSockets)
      ensures var step := SubmitStep(old(activeSessions), userSockets, userId, quizId, questionId, answer, check, verifyCode);
        activeSessions == step.sessions && reply == step.reply && notice == step.notice
    {
      SubmitKeepsWellFormed(activeSessions, userSockets, userId, quizId, questionId, answer, check, verifyCode);
      if !(quizId in activeSessions && userId in activeSessions[quizId].participants) {
        return SubmitError(NotInSession), None;
      }
      if check == Rejected {
        return SubmitError(InvalidSignature), None;
      }
      if check == Threw {
        return SubmitError(VerificationFailed), None;
      }
      SubmitAccepted(activeSessions, userSockets, userId, quizId, questionId, answer, verifyCode);
      var session := activeSessions[quizId];
      var participant := session.participants[userId];
      participant := participant.(answers := participant.answers[questionId := answer]);
      session := session.(participants := session.participants[userId := participant]);
      activeSessions := activeSessions[quizId := session];
      if AllAnswered(session.quiz, participant.answers) {
        var score := CalculateScore(session.quiz, participant.answers, verifyCode);
        notice := HandleQuizCompletion(quizId, userId, score);
        return Accepted(true, Some(score)), notice;
      }
      return Accepted(false, None), None;
    }

    /** handleHeartbeat (quiz.gateway.ts:239-265); when the time is up, handleTimeUp runs
        to completion within the same step. */
    method HandleHeartbeat(userId: string, quizId: string, now: int)
      returns (reply: HeartbeatReply, notice: Option<QuizCompleted>)
      requires Valid()
      modifies this
      ensures Valid() && userSockets == old(userSockets)
      ensures var step := HeartbeatStep(old(activeSessions), userSockets, userId, quizId, now, verifyCode);
        activeSessions == step.sessions && reply == step.reply && notice == step.notice
    {
      HeartbeatKeepsWellFormed(activeSessions, userSockets, userId, quizId, now, verifyCode);
      if !(quizId in activeSessions && userId in activeSessions[quizId].participants) {
        return HeartbeatError(NotInSession), None;
      }
      var session := activeSessions[quizId];
      var participant := session.participants[userId];
      var left := TimeRemaining(session.quiz.timeLimit, participant.startTime, now);
      participant := participant.(timeRemaining := left);
      activeSessions := activeSessions[quizId := session.(participants := session.participants[userId := participant])];
      notice := None;
      if left == 0.0 {
        notice := HandleTimeUp(quizId, userId);
      }
      reply := Remaining(left);
    }

    /** handleTimeUp (quiz.gateway.ts:288-295): score the answers on record and complete.
        A missing participant makes the source throw before any change; here it is a no-op. */
    method HandleTimeUp(quizId: string, userId: string) returns (notice: Option<QuizCompleted>)
      requires Valid()
      modifies this
      ensures Valid() && userSockets == old(userSockets)
      ensures quizId in old(activeSessions) && userId in old(activeSessions)[quizId].participants ==>
        var score := ParticipantScore(old(activeSessions)[quizId].quiz, old(activeSessions)[quizId].participants[userId].answers, verifyCode);
        && activeSessions == Without(old(activeSessions), quizId, userId)
        && notice == CompletionNotice(old(activeSessions), userSockets, quizId, userId, score)
      ensures !(quizId in old(activeSessions) && userId in old(activeSessions)[quizId].participants) ==>
        activeSessions == old(activeSessions) && notice == None
    {
      if !(quizId in activeSessions && userId in activeSessions[quizId].participants) {
        return None;
      }
      var session := activeSessions[quizId];
      var participant := session.participants[userId];
      var score := CalculateScore(session.quiz, participant.answers, verifyCode);
      notice := HandleQuizCompletion(quizId, userId, score);
    }

    /** handleQuizCompletion (quiz.gateway.ts:297-314): notify the participant's socket with
        the score and `score >= passingScore`, then remove the participant. */
    method HandleQuizCompletion(quizId: string, userId: string, score: Score) returns (notice: Option<QuizCompleted>)
      requires Valid()
      modifies this
      ensures Valid() && userSockets == old(userSockets)
      ensures activeSessions == Without(old(activeSessions), quizId, userId)
      ensures notice == CompletionNotice(old(activeSessions), userSockets, quizId, userId, score)
    {
      WithoutKeepsWellFormed(activeSessions, quizId, userId);
      if quizId !in activeSessions {
        return None;
      }
      var session := activeSessions[quizId];
      notice := None;
      if userId in userSockets && userSockets[userId] != "" {
        notice := Some(QuizCompleted(userSockets[userId], score, Passed(score, session.quiz.passingScore)));
      }
      var rest := session.participants - {userId};
      if |rest| == 0 {
        activeSessions := activeSessions - {quizId};
      } else {
        activeSessions := activeSessions[quizId := session.(participants := rest)];
      }
    }

    /** handleParticipantDisconnect (quiz.gateway.ts:274-286): remove the participant; the
        result is the `participantLeft` count, emitted only when the session survives. */
    method HandleParticipantDisconnect(quizId: string, userId: string) returns (left: Option<nat>)
      requires Valid()
      modifies this
      ensures Valid() && userSockets == old(userSockets)
      ensures activeSessions == Without(old(activeSessions), quizId, userId)
      ensures left.Some? <==> quizId in activeSessions
      ensures left.Some? ==> left.value == |activeSessions[quizId].participants| > 0
    {
      WithoutKeepsWellFormed(activeSessions, quizId, userId);
      if quizId !in activeSessions {
        return None;
      }
      var session := activeSessions[quizId];
      var rest := session.participants - {userId};
      if |rest| == 0 {
        activeSessions := activeSessions - {quizId};
        left := None;
      } else {
        activeSessions := activeSessions[quizId := session.(participants := rest)];
        left := Some(|rest|);
      }
    }

    /** findUserIdBySocketId (quiz.gateway.ts:267-272): a user whose recorded socket is
        `socketId`, if there is one. */
    method FindUserIdBySocketId(socketId: string) returns (userId: Option<string>)
      ensures userId.Some? ==> userId.value in userSockets && userSockets[userId.value] == socketId
      ensures userId.None? <==> forall u | u in userSockets :: userSockets[u] != socketId
    {
      var todo := userSockets.Keys;
      while todo != {}
        invariant todo <= userSockets.Keys
        invariant forall u | u in userSockets && u !in todo :: userSockets[u] != socketId
        decreases |todo|
      {
        var u :| u in todo;
        if userSockets[u] == socketId {
          return Some(u);
        }
        todo := todo - {u};
      }
      return None;
    }

    /** handleDisconnect (quiz.gateway.ts:125-137): forget the user's socket and take the user
        out of every session that holds them, visiting the sessions in the order `order`.
        The result maps each surviving session the user left to its `participantLeft` count. */
    method HandleDisconnect(socketId: string) returns (left: map<string, nat>, ghost order: seq<string>)
      requires Valid()
      modifies this
      ensures Valid()
      ensures (forall u | u in old(userSockets) :: old(userSockets)[u] != socketId) ==>
        activeSessions == old(activeSessions) && userSockets == old(userSockets) && left == map[]
      ensures (exists u | u in old(userSockets) :: old(userSockets)[u] == socketId) ==>
        && Distinct(order) && Elements(order) == old(activeSessions).Keys
        && exists u | u in old(userSockets) && old(userSockets)[u] == socketId ::
          && userSockets == old(userSockets) - {u}
          && activeSessions == Disconnected(old(activeSessions), u, order)
          && left == LeftAlong(old(activeSessions), u, order)
    {
      var found := FindUserIdBySocketId(socketId);
      if found.None? {
        return map[], [];
      }
      var userId := found.value;
      userSockets := userSockets - {userId};
      left, order := LeaveAllSessions(userId);
    }

    /** One iteration of handleDisconnect's loop: leave session `q` if it still holds the user. */
    method LeaveSession(ghost start: map<string, Session>, userId: string, ghost order: seq<string>, q: string,
                        left: map<string, nat>) returns (left': map<string, nat>)
      requires Valid()
      requires activeSessions == Disconnected(start, userId, order)
      requires left == LeftAlong(start, userId, order)
      modifies this
      ensures Valid() && userSockets == old(userSockets)
      ensures activeSessions == Disconnected(start, userId, order + [q])
      ensures left' == LeftAlong(start, userId, order + [q])
    {
      VisitStep(start, userId, order, q);
      left' := left;
      if q in activeSessions && userId in activeSessions[q].participants {
        var remaining := HandleParticipantDisconnect(q, userId);
        if remaining.Some? {
          left' := left[q := remaining.value];
        }
      }
    }

    /** The loop of handleDisconnect (quiz.gateway.ts:130-134) over the live sessions; `order`
        records the order in which it visits them. */
    method LeaveAllSessions(userId: string) returns (left: map<string, nat>, ghost order: seq<string>)
      requires Valid()
      modifies this
      ensures Valid() && userSockets == old(userSockets)
      ensures Distinct(order) && Elements(order) == old(activeSessions).Keys
      ensures activeSessions == Disconnected(old(activeSessions), userId, order)
      ensures left == LeftAlong(old(activeSessions), userId, order)
    {
      left := map[];
      order := [];
      ghost var start := activeSessions;
      var todo := activeSessions.Keys;
      while todo != {}
        invariant todo <= start.Keys
        invariant Distinct(order) && Elements(order) == start.Keys - todo
        invariant activeSessions == Disconnected(start, userId, order)
        invariant left == LeftAlong(start, userId, order)
        invariant Valid() && userSockets == old(userSockets)
        decreases |todo|
      {
        var q :| q in todo;
        VisitNext(order, q);
        VisitOne(start.Keys, todo, q);
        left := LeaveSession(start, userId, order, q, left);
        order := order + [q];
        todo := todo - {q};
      }
    }
  }
}
