# EduStreamPro core in Dafny

This project models the core of EduStreamPro, an online course platform, and proves properties of that model. It covers seven source files:

- **Live quiz session engine**: the `QuizGateway` socket handlers. They cover join, answer submission, heartbeat and time-out, completion and disconnect, plus the scorer.
- **REST quiz controller**: the quiz and question store and the attempt lifecycle.
- **Enrollment registry**: each student's course set and progress.
- **Course, module and lesson service**: creation, appends, publishing, reordering and the video transcoding status.
- **Form validators** of the front end.
- **Route guard** of the front end, together with its route table.
- **Content-type lookup** of the storage adapter.

Each file is one module. Base holds Option and Result, plus the exception kinds the services throw (NotFound, BadRequest, Conflict). QuizEntities holds the quiz and question records and the checks the gateway and the controller share.

**Services are classes.** Every service that keeps state in maps becomes a `class` whose fields are those maps. Its methods change them in place.

- Each method is tied to pure transition functions, e.g. `Joined`, `Without`, `SubmitStep`, `HeartbeatStep`, `Disconnected`, `EnrolledSets`, `Reordered`, `Renumbered`.
- Each class carries a top-level invariant that every method keeps: `WellFormed`, `StoreValid`, `Consistent` or `CatalogValid`.
- The properties are lemmas over the transition functions.

**Shared objects become ids.** In the source, a course's `modules` array and the module map hold the same objects, and the same goes for lessons and quiz questions. The model files the record once in its map and lets the owner list ids. An update made through the map is then seen through the owner, as in the source.

**Inputs stand in for what the model cannot see.** Ids that the source draws from `Date.now()` are parameters that must be fresh. The following become inputs:

- the outcome of the cryptographic signature check;
- the result of video processing;
- the looked-up course in `enrollStudent`;
- the quiz definition of a session;
- the clock reading.

**Lengths are JavaScript's.** `.length` counts UTF-16 code units, so a character outside the Basic Multilingual Plane counts twice (`Validators.Utf16Length`). The regular expressions of the validators carry no `u` flag and test code units; a surrogate half is never whitespace, '@', an ASCII letter, a digit or one of `!@#$%^&*`, so testing them on characters gives the same answers.

**A personalised course keeps at most 32 modules.** The learning-path model ends in 32 softmax units (course-management.service.ts:50-52), so the prediction `reorderContent` receives permutes the positions 0 to 31. Reordering keeps the module at each predicted position and drops positions past the end, so a course with more than 32 modules loses every module past position 31 when `getCourse` personalises it for a user (`CourseManagement.LongCourseLosesModules`). Up to 32 modules, the course gets a permutation of its modules (`CourseManagement.PermutationPreserved`).

**Scores are exact.** The source's floating-point score `(earned / total) * 100` becomes an exact `real`. The NaN it yields when `total` is 0 is its own outcome, `NotANumber`, and every comparison with it is false.

**Where the design description and the code disagree, the model follows the code:**

- **Zero-point quiz:** the score is NaN, not 0 (quiz.gateway.ts:345 and quizzes.controller.ts:204).
- **True/false questions in the gateway:** they never earn points, because they are missing from the gateway's `switch` (quiz.gateway.ts:329-341).
- **Multiple-choice answers:** an answer is accepted when it has the correct length and every element is a correct id; it does not have to equal the set of correct ids. `QuizEntities.ListCheckAcceptsRepeats` exhibits an answer `[a, a]` that is accepted although `b`, the other correct choice, is missing.
- **Failed signature:** the submission is answered with an error status and the connection stays open. An answer for a question id the quiz does not have is still recorded.
- **Re-joining after completion** is not refused.
- **Unknown quiz id:** joining creates a session rather than being rejected. The source never loads the quiz (it stores `quiz: null`), so the model's session holds the definition given at creation.
- **Publishing:** a REST quiz can only become Published through `updateQuiz`. `updateCourse` can set `isPublished` directly, which bypasses `publishCourse`'s check for modules (`CourseManagement.PatchCourse`).

## Model

| member | source | states |
|---|---|---|
| RouterGuard.Guard | frontend/src/router/index.ts:101-124 | guest-only route + signed in goes to /dashboard; auth route + signed out goes to /login; auth route whose roles list lacks the user's role (or no role is known) goes to /dashboard; it proceeds exactly when none of these applies; no other redirect target exists |
| RouterGuard.MetaOf | frontend/src/router/index.ts:5-88 | a route meta is found exactly for the route patterns listed in the route table (such as "/courses/:id"), and it is the meta of a record with that pattern |
| RouterGuard.IsAuthenticated | frontend/src/stores/auth-store.ts:14 | `!!tokens?.accessToken`: signed in exactly when an access token is present and non-empty; SignedOutGuard gives what the guard then does |
| RouterGuard.SignedOutGuard | frontend/src/stores/auth-store.ts:14 | with no access token or an empty one the user is signed out: every auth route redirects to /login and every other route, guest-only ones included, proceeds, whatever the role |
| RouterGuard.RolesIgnoredWithoutAuth | frontend/src/router/index.ts:112-123 | on a route without requiresAuth a roles list changes nothing |
| RouterGuard.NoRedirectLoop | frontend/src/router/index.ts:107-120 | whatever the route, auth state and role, a redirect target is in the table and the guard admits the same user there |
| RouterGuard.LoginIsGuestOnly | frontend/src/router/index.ts:11-16 | /login is guest-only, without roles |
| RouterGuard.DashboardIsSignedIn | frontend/src/router/index.ts:23-28 | /dashboard requires sign-in and has no roles list |
| RouterGuard.SignedInUsersReachUnrestrictedRoutes | frontend/src/router/index.ts:5-88 | a signed-in user of any role reaches every table route that is not guest-only and has no roles list |
| ContentType.Extension | backend/src/shared/storage/s3-adapter.ts:290 | the extension is the suffix after the last '.', holds no '.', and is the whole name when there is no '.' |
| ContentType.ToLower | backend/src/shared/storage/s3-adapter.ts:290 | the result has the same length and no letter A-Z; each upper-case letter becomes its lower-case partner and every other character is kept |
| ContentType.GetContentType | backend/src/shared/storage/s3-adapter.ts:289-303 | the result is application/octet-stream exactly when the lower-cased extension is no key of the table; CaseInsensitive, OnlyExtensionMatters and TrailingDotIsUnknown say what decides the key |
| ContentType.Lookup | backend/src/shared/storage/s3-adapter.ts:302 | the table's entry for every key, and the default exactly for the extensions the table lacks; JavaScript falls back for a missing key and for an empty entry alike, and no entry is empty |
| ContentType.ExtensionOfLower | backend/src/shared/storage/s3-adapter.ts:290 | lower-casing the name and then taking the extension equals taking the extension and then lower-casing |
| ContentType.CaseInsensitive | backend/src/shared/storage/s3-adapter.ts:290 | names equal up to letter case get the same content type |
| ContentType.TrailingDotIsUnknown | backend/src/shared/storage/s3-adapter.ts:302 | a trailing '.' gives the empty extension and application/octet-stream |
| ContentType.ExtensionAfterLastDot | backend/src/shared/storage/s3-adapter.ts:290 | the extension of stem.ext is ext for any stem |
| ContentType.OnlyExtensionMatters | backend/src/shared/storage/s3-adapter.ts:289-303 | a prefix ending in '.' never changes the content type |
| ContentType.JpgAndJpegAgree | backend/src/shared/storage/s3-adapter.ts:296-297 | .jpg and .jpeg both give image/jpeg |
| ContentType.BareNameIsExtension | backend/src/shared/storage/s3-adapter.ts:290 | a name without '.' is looked up whole, so "mp4" gives video/mp4 |
| Validators.ValidateEmail | frontend/src/utils/validators.ts:1-4 | the four conditions (no whitespace, one '@' after a non-empty local part, no '@' in the domain, a '.' inside the domain); ValidateEmailMatchesPattern proves they accept exactly the regular expression's strings |
| Validators.ValidateEmailMatchesPattern | frontend/src/utils/validators.ts:1-4 | in both directions, the four conditions (no whitespace, exactly one '@', non-empty local part, a '.' inside the domain) accept exactly the strings of the anchored regular expression |
| Validators.ConditionsGivePattern | frontend/src/utils/validators.ts:1-4 | a string meeting the four conditions matches the pattern |
| Validators.PatternGivesConditions | frontend/src/utils/validators.ts:1-4 | a string matching the pattern meets the four conditions |
| Validators.Utf16Length | frontend/src/utils/validators.ts:12 | `.length` in UTF-16 code units: between the number of characters and twice it, and equal to it exactly when every character lies in the Basic Multilingual Plane |
| Validators.ValidatePassword | frontend/src/utils/validators.ts:6-32 | isValid iff errors is empty iff all five rules hold, the length rule counting UTF-16 code units; a rule's message is present iff the rule fails; messages come in the order length, upper, lower, digit, special |
| Validators.PasswordLengthInCodeUnits | frontend/src/utils/validators.ts:12 | "Aa1!" followed by two emoji has six characters but eight code units, and passes every rule |
| Validators.ValidateVideoFile | frontend/src/utils/validators.ts:34-56 | valid iff the type is mp4, webm or quicktime and size <= 1073741824; a bad type reports the format error even when the size is also bad; a good type with too large a size reports the size error |
| Validators.ValidateQuizDuration | frontend/src/utils/validators.ts:58-60 | 1 to 180 minutes, both ends included; QuizDurationWholeMinutes gives its whole-minute form |
| Validators.QuizDurationWholeMinutes | frontend/src/utils/validators.ts:58-60 | a whole number of minutes is accepted iff it is 1..180, and a quiz with such a limit starts with 60 to 10800 seconds remaining |
| Validators.ValidateCourseTitle | frontend/src/utils/validators.ts:62-64 | 5 to 100 UTF-16 code units, both ends included; CourseTitleLength gives it in characters |
| Validators.CourseTitleLength | frontend/src/utils/validators.ts:62-64 | any title of 5..50 characters is accepted; an accepted title has 3..100 characters; a title in the Basic Multilingual Plane is accepted iff it has 5..100 characters |
| Validators.ValidateCoursePrice | frontend/src/utils/validators.ts:66-68 | free up to 999.99, both ends included; CoursePriceInCents gives it in cents |
| Validators.CoursePriceInCents | frontend/src/utils/validators.ts:66-68 | a price of c cents is accepted iff 0 <= c <= 99999 |
| Validators.ValidateModuleOrder | frontend/src/utils/validators.ts:70-72 | 1 up to the module count plus one; OrderValidatorsAcceptPositions gives its whole-number form |
| Validators.ValidateLessonOrder | frontend/src/utils/validators.ts:74-76 | 1 up to the lesson count plus one; OrderValidatorsAcceptPositions gives its whole-number form |
| Validators.OrderValidatorsAcceptPositions | frontend/src/utils/validators.ts:70-76 | for whole numbers both order validators accept exactly 1..total+1 |
| QuizEntities.CorrectChoiceIds | backend/src/quizzes/gateways/quiz.gateway.ts:351 | an id is in the list exactly when some choice with that id is marked correct; no longer than the choices |
| QuizEntities.CorrectChoiceIdsOne | backend/src/quizzes/gateways/quiz.gateway.ts:351 | one choice gives its id when marked correct, else nothing |
| QuizEntities.CorrectChoiceIdsAppend | backend/src/quizzes/gateways/quiz.gateway.ts:351 | filtering keeps order: the ids of a + b are those of a followed by those of b |
| QuizEntities.FindChoice | backend/src/quizzes/gateways/quiz.gateway.ts:358 | None iff no choice has the id; otherwise the first choice with that id |
| QuizEntities.ScoreOf | backend/src/quizzes/gateways/quiz.gateway.ts:345 | NaN iff the total is 0; otherwise score * total = 100 * earned |
| QuizEntities.ScoreInRange | backend/src/quizzes/gateways/quiz.gateway.ts:345 | with earned <= total and total > 0 the score lies in [0, 100], and is 100 iff everything was earned |
| QuizEntities.ListCheckIsSetEquality | backend/src/quizzes/gateways/quiz.gateway.ts:349-355 | without repeated ids, the list check accepts exactly the answers whose ids are the set of correct ids |
| QuizEntities.ListCheckAcceptsRepeats | backend/src/quizzes/gateways/quiz.gateway.ts:349-355 | the list check accepts [a, a] when a and b are the correct choices |
| QuizGateway.ChoiceAccepted | backend/src/quizzes/gateways/quiz.gateway.ts:348-360 | the answer's shape picks the check: a list must pass the list check (ListCheckIsSetEquality, ListCheckAcceptsRepeats), a single id must name a correct choice (FindChoice) |
| QuizGateway.AllAnswered | backend/src/quizzes/gateways/quiz.gateway.ts:316-318 | every question id has a recorded answer, falsy ones included; AllAnsweredAfterRecording and SubmitCompletesIffAllAnswered say how it decides completion |
| QuizGateway.EarnedWithinEligible | backend/src/quizzes/gateways/quiz.gateway.ts:324-343 | earned points <= points of the truthy-answered, non-true/false questions <= total points |
| QuizGateway.ParticipantScoreInRange | backend/src/quizzes/gateways/quiz.gateway.ts:320-346 | the score is NaN iff the quiz is worth 0 points, and otherwise lies in [0, 100] |
| QuizGateway.CalculateScore | backend/src/quizzes/gateways/quiz.gateway.ts:320-346 | the accumulating loop returns the participant's score: the points of the earning questions over all points, times 100 |
| QuizGateway.AllAnsweredAfterRecording | backend/src/quizzes/gateways/quiz.gateway.ts:316-318 | after recording one answer the quiz is complete iff every other question was already answered; completeness is never lost |
| QuizGateway.TimeRemaining | backend/src/quizzes/gateways/quiz.gateway.ts:254-255 | time remaining is never negative and never exceeds the limit in seconds |
| QuizGateway.TimeRemainingNonIncreasing | backend/src/quizzes/gateways/quiz.gateway.ts:254-255 | it never grows as the clock advances and is 0 once the limit has passed |
| QuizGateway.JoinCreatesOrReuses | backend/src/quizzes/gateways/quiz.gateway.ts:147-178 | join creates the session for an unknown quiz and reuses a known one; the user is a participant with no answers and the full budget; a re-join replaces rather than adds an entry; other sessions are unchanged |
| QuizGateway.JoinKeepsWellFormed | backend/src/quizzes/gateways/quiz.gateway.ts:147-164 | join keeps the registry invariant (filed under own id, never empty, no negative time) |
| QuizGateway.WithoutRemoves | backend/src/quizzes/gateways/quiz.gateway.ts:278-280 | removal deletes the session iff no other participant is left; otherwise only the user is gone; other sessions untouched |
| QuizGateway.WithoutKeepsWellFormed | backend/src/quizzes/gateways/quiz.gateway.ts:309-313 | removing a participant keeps the registry invariant |
| QuizGateway.SubmitRejectionsChangeNothing | backend/src/quizzes/gateways/quiz.gateway.ts:189-207 | error iff not in session or the signature does not verify; errors change nothing and emit nothing; each case gets its own message |
| QuizGateway.SubmitOverwrites | backend/src/quizzes/gateways/quiz.gateway.ts:209-210 | the answer replaces any earlier one for the question; every other answer is kept |
| QuizGateway.SubmitCompletesIffAllAnswered | backend/src/quizzes/gateways/quiz.gateway.ts:213-234 | complete iff every question then has an answer; completion returns the score of those answers and removes the participant, deleting the session iff it was the last one |
| QuizGateway.SubmitKeepsWellFormed | backend/src/quizzes/gateways/quiz.gateway.ts:189-236 | every submission keeps the registry invariant |
| QuizGateway.RecordedKeepsWellFormed | backend/src/quizzes/gateways/quiz.gateway.ts:209-210 | recording an answer keeps the registry invariant |
| QuizGateway.HeartbeatKeepsWellFormed | backend/src/quizzes/gateways/quiz.gateway.ts:247-264 | every heartbeat keeps the registry invariant |
| QuizGateway.TimeoutCompletesOnce | backend/src/quizzes/gateways/quiz.gateway.ts:257-259 | a heartbeat at 0 completes and removes the participant with the score of the answers on record; the next heartbeat is 'Not in session', changes nothing and emits nothing |
| QuizGateway.HeartbeatsNonIncreasing | backend/src/quizzes/gateways/quiz.gateway.ts:252-255 | two successive heartbeats never report a larger time the second time |
| QuizGateway.DisconnectedAt | backend/src/quizzes/gateways/quiz.gateway.ts:131-135 | after visiting sessions without repeats, a session is gone iff it was visited and held only the user; a visited survivor lost only the user; an unvisited one is unchanged |
| QuizGateway.LeftAlongAt | backend/src/quizzes/gateways/quiz.gateway.ts:131-135 | a participantLeft count is emitted for a session iff it was visited, held the user and survives; it carries the remaining count |
| QuizGateway.DisconnectRemovesEverywhere | backend/src/quizzes/gateways/quiz.gateway.ts:125-137 | after visiting every session once, the user is in no session; exactly the sessions that held only the user are deleted; the others keep their other participants and quiz; counts are emitted exactly for surviving sessions that held the user |
| QuizGateway.DisconnectOrderIrrelevant | backend/src/quizzes/gateways/quiz.gateway.ts:131 | any two visiting orders over all sessions give the same registry and the same counts |
| QuizGateway.DisconnectKeepsWellFormed | backend/src/quizzes/gateways/quiz.gateway.ts:130-135 | the disconnect loop keeps the registry invariant |
| QuizGateway.Gateway.HandleConnection | backend/src/quizzes/gateways/quiz.gateway.ts:77-123 | a connection with a user id and a good handshake records the socket; otherwise nothing changes |
| QuizGateway.Gateway.HandleJoinQuiz | backend/src/quizzes/gateways/quiz.gateway.ts:139-179 | the registry becomes Joined(old); the reply's count is the session's participant count and its time is the user's |
| QuizGateway.Gateway.HandleSubmitAnswer | backend/src/quizzes/gateways/quiz.gateway.ts:181-237 | the registry, reply and completion event are those of SubmitStep; the invariant is kept |
| QuizGateway.Gateway.HandleHeartbeat | backend/src/quizzes/gateways/quiz.gateway.ts:239-265 | the registry, reply and completion event are those of HeartbeatStep; the invariant is kept |
| QuizGateway.Gateway.HandleTimeUp | backend/src/quizzes/gateways/quiz.gateway.ts:288-295 | a present participant is scored on the answers on record and removed, with the completion event; otherwise nothing changes |
| QuizGateway.Gateway.HandleQuizCompletion | backend/src/quizzes/gateways/quiz.gateway.ts:297-314 | the event goes to the user's socket with passed = score >= passingScore when the session exists; the participant is then removed, and an emptied session deleted |
| QuizGateway.Gateway.HandleParticipantDisconnect | backend/src/quizzes/gateways/quiz.gateway.ts:274-286 | the participant is removed; a count is returned iff the session survives, and it is the remaining, positive, participant count |
| QuizGateway.Gateway.FindUserIdBySocketId | backend/src/quizzes/gateways/quiz.gateway.ts:267-272 | a returned user has that socket; None iff no user has it |
| QuizGateway.Gateway.HandleDisconnect | backend/src/quizzes/gateways/quiz.gateway.ts:125-137 | an unknown socket changes nothing; otherwise the user's socket is forgotten and the registry and counts are those of visiting every session once |
| QuizGateway.Gateway.LeaveAllSessions | backend/src/quizzes/gateways/quiz.gateway.ts:130-135 | the loop visits every live session exactly once; the registry and counts are those of that visiting order |
| QuizGateway.Gateway.LeaveSession | backend/src/quizzes/gateways/quiz.gateway.ts:132-134 | one loop iteration extends the visiting order by one session |
| QuizzesController.NewQuiz | backend/src/quizzes/entities/quiz.entity.ts:23-29 | a new quiz is a draft with no questions, whatever the body says, under the given id |
| QuizzesController.PatchQuiz | backend/src/quizzes/quizzes.controller.ts:54-57 | the id and questions are kept; a status in the body replaces the old one |
| QuizzesController.PatchQuestion | backend/src/quizzes/quizzes.controller.ts:98-101 | the id and quiz are kept; given points replace the old ones |
| QuizzesController.RemoveId | backend/src/quizzes/quizzes.controller.ts:119 | exactly the given id is removed; a list without it is unchanged; distinctness is kept |
| QuizzesController.RemoveIdAtPosition | backend/src/quizzes/quizzes.controller.ts:119 | with distinct ids, the other questions keep their order |
| QuizzesController.ControllerTotals | backend/src/quizzes/quizzes.controller.ts:179-202 | the controller's total is the points of the answered questions; earned <= that total <= all points |
| QuizzesController.AllAnsweredCountsEverything | backend/src/quizzes/quizzes.controller.ts:182-186 | when every question has a truthy answer, the total is every question's points |
| QuizzesController.AnsweredPointsAppend | backend/src/quizzes/quizzes.controller.ts:179-202 | the total of a + b is the total of a plus the total of b |
| QuizzesController.ControllerEarnedAppend | backend/src/quizzes/quizzes.controller.ts:179-202 | the earned points of a + b are those of a plus those of b |
| QuizzesController.UnansweredIsSkipped | backend/src/quizzes/quizzes.controller.ts:183-184 | an unanswered question, at any position, changes neither total |
| QuizzesController.ControllerChoiceAccepted | backend/src/quizzes/quizzes.controller.ts:257-268 | the question's type picks the check: multiple choice needs a list passing the list check, any other type one id naming a correct choice; ChoiceChecksCompared relates it to the gateway |
| QuizzesController.ChoiceChecksCompared | backend/src/quizzes/quizzes.controller.ts:257-268 | when the answer is a list exactly for a multiple-choice question, the controller accepts iff the gateway's ChoiceAccepted does; any other shape the controller rejects |
| QuizzesController.ChoiceChecksDiffer | backend/src/quizzes/quizzes.controller.ts:257-268 | a single-choice question answered with the list of its one correct id is accepted by the gateway and rejected by the controller |
| QuizzesController.ScoreAnswers | backend/src/quizzes/quizzes.controller.ts:179-202 | the loop returns the earned points and the answered points |
| QuizzesController.FinishingAdvances | backend/src/quizzes/quizzes.controller.ts:207-212 | replacing an in-progress attempt keeps every attempt and every finished one unchanged |
| QuizzesController.QuestionList | backend/src/quizzes/quizzes.controller.ts:182 | the quiz's questions in order, each filed under its id and belonging to the quiz |
| QuizzesController.NewQuizKeepsValid | backend/src/quizzes/quizzes.controller.ts:33-39 | a new quiz under a fresh id keeps the store invariant |
| QuizzesController.PatchKeepsValid | backend/src/quizzes/quizzes.controller.ts:54-59 | updating a quiz keeps the store invariant |
| QuizzesController.AddKeepsValid | backend/src/quizzes/quizzes.controller.ts:74-83 | appending a question keeps the store invariant and the earlier questions in place |
| QuizzesController.DeleteKeepsValid | backend/src/quizzes/quizzes.controller.ts:119-120 | deleting a question keeps the store invariant |
| QuizzesController.UpdateKeepsValid | backend/src/quizzes/quizzes.controller.ts:98-103 | updating a question keeps the store invariant |
| QuizzesController.Controller.CreateQuiz | backend/src/quizzes/quizzes.controller.ts:27-41 | non-instructors are refused with nothing changed; otherwise the new draft quiz is stored under the fresh id |
| QuizzesController.Controller.UpdateQuiz | backend/src/quizzes/quizzes.controller.ts:43-61 | NotFound for a missing quiz; otherwise the patched quiz is stored and returned |
| QuizzesController.Controller.AddQuestion | backend/src/quizzes/quizzes.controller.ts:63-85 | NotFound for a missing quiz; otherwise the question is numbered count + 1, stored, and appended to the quiz |
| QuizzesController.Controller.UpdateQuestion | backend/src/quizzes/quizzes.controller.ts:87-105 | NotFound when the question is missing or belongs to another quiz; otherwise it is patched |
| QuizzesController.Controller.DeleteQuestion | backend/src/quizzes/quizzes.controller.ts:107-122 | NotFound when quiz or question is missing or they do not match; otherwise exactly that id leaves the quiz and the store |
| QuizzesController.Controller.StartQuiz | backend/src/quizzes/quizzes.controller.ts:124-158 | refused for a missing quiz, an unpublished one, or any existing attempt, finished or not; succeeds exactly otherwise, with a new in-progress attempt without answers |
| QuizzesController.Controller.SubmitQuiz | backend/src/quizzes/quizzes.controller.ts:160-220 | refused without an in-progress attempt; otherwise it scores answered questions only, passed iff score >= passingScore, and finishes the attempt |
| QuizzesController.Controller.GetQuizAttempts | backend/src/quizzes/quizzes.controller.ts:242-255 | the user's attempt on the quiz, or None when there is none |
| QuizzesController.AttemptLifecycle | backend/src/quizzes/quizzes.controller.ts:139-212 | a started attempt is in progress without answers; after submission it is no longer in progress, so neither submit nor start accepts it again; other attempts are untouched |
| Enrollment.EnrollKeepsConsistent | backend/src/courses/services/enrollment.service.ts:15-27 | enrolling keeps the invariant: progress keys equal the course set, no empty set, progress <= 100 |
| Enrollment.UnenrollKeepsConsistent | backend/src/courses/services/enrollment.service.ts:43-56 | unenrolling keeps the invariant, removes the enrollment, and drops the student from both maps iff that was their only course |
| Enrollment.ProgressKeepsConsistent | backend/src/courses/services/enrollment.service.ts:67-73 | updating progress keeps the invariant |
| Enrollment.ProgressMonotone | backend/src/courses/services/enrollment.service.ts:71 | progress never decreases, stays <= 100, grows by 10 or reaches 100, and stays put only at 100 |
| Enrollment.RepeatedUpdates | backend/src/courses/services/enrollment.service.ts:67-73 | n updates give min(start + 10n, 100) |
| Enrollment.EnrollThenUnenrollRestores | backend/src/courses/services/enrollment.service.ts:21-56 | enrolling in a new course and unenrolling restores both maps exactly |
| Enrollment.EnrollmentService.EnrollStudent | backend/src/courses/services/enrollment.service.ts:9-35 | NotFound without a course and Conflict when already enrolled, neither changing anything; otherwise enrolled with progress 0 |
| Enrollment.EnrollmentService.UnenrollStudent | backend/src/courses/services/enrollment.service.ts:37-59 | NotFound when not enrolled, with nothing changed; otherwise the enrollment is removed with empty entries cleaned up |
| Enrollment.EnrollmentService.UpdateProgress | backend/src/courses/services/enrollment.service.ts:61-82 | NotFound when not enrolled; otherwise progress becomes min(old + 10, 100) and is returned |
| Enrollment.EnrollmentService.GetStudentEnrollments | backend/src/courses/services/enrollment.service.ts:84-93 | one entry per enrolled course, each course once, with its recorded progress or 0 |
| Enrollment.EnrollmentService.GetCourseEnrollments | backend/src/courses/services/enrollment.service.ts:95-108 | exactly the students enrolled in the course, each once, with their recorded progress or 0 |
| CourseManagement.NewCourse | backend/src/courses/entities/course.entity.ts:16-23 | a new course is unpublished with no modules and no students, whatever the body says |
| CourseManagement.PatchCourse | backend/src/courses/services/course-management.service.ts:126-129 | id, modules and students are kept; isPublished is whatever the body sets, else unchanged |
| CourseManagement.QualityFromUrl | backend/src/courses/services/course-management.service.ts:223-228 | the result is one of 1080p, 720p, 480p, 360p |
| CourseManagement.QualityIsBestNamed | backend/src/courses/services/course-management.service.ts:223-228 | the result is the first of 1080p, 720p, 480p that the URL contains, else 360p, both directions |
| CourseManagement.QualityOfNamedUrl | backend/src/courses/services/course-management.service.ts:225 | a URL containing 720p and not 1080p gets 720p |
| CourseManagement.Variants | backend/src/courses/services/course-management.service.ts:209-212 | the variants' URLs are the given URLs in order, and each is labelled with the best quality its URL names (the first of 1080p, 720p, 480p it contains, else 360p; BestNamedUnique makes that label unique) |
| CourseManagement.Transcoded | backend/src/courses/services/course-management.service.ts:207-217 | only the transcoding changes; success: completed, progress 100, one variant per URL; failure: only the status becomes failed |
| CourseManagement.Reordered | backend/src/courses/services/course-management.service.ts:322-324 | only modules of the course appear; with every index in range, position k holds the module at index k of the prediction |
| CourseManagement.ReorderedAppend | backend/src/courses/services/course-management.service.ts:322-324 | reordering distributes over concatenation of predictions |
| CourseManagement.OutOfRangeDropped | backend/src/courses/services/course-management.service.ts:324 | an out-of-range index is dropped wherever it occurs |
| CourseManagement.ReorderedRespectsPermutation | backend/src/courses/services/course-management.service.ts:322-324 | predictions that are permutations of each other give the same modules counted with repetition, out-of-range positions included |
| CourseManagement.NoneInRange | backend/src/courses/services/course-management.service.ts:322-324 | a prediction with no position in range keeps no module |
| CourseManagement.ReorderedPositions | backend/src/courses/services/course-management.service.ts:322-324 | the positions 0 .. n - 1 in turn give the first n modules back, and all of them once n reaches their number |
| CourseManagement.PositionsBeyond | backend/src/courses/services/course-management.service.ts:322-324 | positions 0 .. n - 1 with n past the module count give the modules back |
| CourseManagement.PermutationKeepsFirst | backend/src/courses/services/course-management.service.ts:320-326 | a prediction that permutes 0 .. n - 1 keeps exactly the first n modules (or all), each once |
| CourseManagement.PermutationPreserved | backend/src/courses/services/course-management.service.ts:320-326 | a prediction that permutes 0 .. n - 1, for n at least the module count, yields a permutation of the modules |
| CourseManagement.LongCourseLosesModules | backend/src/courses/services/course-management.service.ts:312-326 | with more than 32 modules (the 32 softmax units of lines 50-52) and a permutation of the 32 score positions, 32 modules remain, the first 32 each once; without repeats every module past position 31 is gone |
| CourseManagement.RenumberedDistinct | backend/src/courses/services/course-management.service.ts:329-331 | without repeats, module i gets order i + 1 |
| CourseManagement.NewCourseKeepsValid | backend/src/courses/services/course-management.service.ts:110-117 | a new course keeps the catalog invariant |
| CourseManagement.AddModuleKeepsValid | backend/src/courses/services/course-management.service.ts:141-151 | appending a module numbered count + 1 keeps the catalog invariant and orders that matched positions |
| CourseManagement.AddLessonKeepsValid | backend/src/courses/services/course-management.service.ts:160-170 | appending a lesson keeps the catalog invariant |
| CourseManagement.LessonUpdateKeepsValid | backend/src/courses/services/course-management.service.ts:214 | re-storing a lesson in its module keeps the catalog invariant |
| CourseManagement.ReorderKeepsValid | backend/src/courses/services/course-management.service.ts:320-332 | reordering keeps the catalog invariant; without repeats the orders match positions |
| CourseManagement.CourseManager.CreateCourse | backend/src/courses/services/course-management.service.ts:110-118 | the new course is stored under the fresh id, nothing else changes |
| CourseManagement.CourseManager.UpdateCourse | backend/src/courses/services/course-management.service.ts:120-133 | NotFound for a missing course; otherwise the patched course is stored |
| CourseManagement.CourseManager.AddModule | backend/src/courses/services/course-management.service.ts:135-152 | NotFound for a missing course; otherwise the module, with no lessons and order count + 1, is stored and appended |
| CourseManagement.CourseManager.AddLesson | backend/src/courses/services/course-management.service.ts:154-171 | NotFound for a missing module; otherwise the lesson, with order count + 1, is stored and appended |
| CourseManagement.CourseManager.UploadVideoLesson | backend/src/courses/services/course-management.service.ts:173-221 | NotFound for a missing module; otherwise a pending lesson at progress 0 is appended, then completed with variants on success, or kept but marked failed on failure, which raises BadRequest |
| CourseManagement.CourseManager.FinishUpload | backend/src/courses/services/course-management.service.ts:199-220 | the stored lesson takes the transcoding outcome; success returns it, failure raises |
| CourseManagement.CourseManager.StoreLesson | backend/src/courses/services/course-management.service.ts:214 | the lesson is stored under its id, nothing else changes |
| CourseManagement.CourseManager.GetModule | backend/src/courses/services/course-management.service.ts:651-657 | NotFound iff the module is missing, otherwise the module |
| CourseManagement.CourseManager.GetLesson | backend/src/courses/services/course-management.service.ts:659-665 | NotFound iff the lesson is missing, otherwise the lesson |
| CourseManagement.CourseManager.PublishCourse | backend/src/courses/services/course-management.service.ts:667-681 | NotFound for a missing course and BadRequest for one without modules, nothing changed; otherwise it is published |
| CourseManagement.CourseManager.UnpublishCourse | backend/src/courses/services/course-management.service.ts:683-693 | NotFound for a missing course; otherwise it is unpublished |
| CourseManagement.CourseManager.ReorderContent | backend/src/courses/services/course-management.service.ts:320-332 | the course lists the modules at the predicted positions, out-of-range ones dropped; they are renumbered; without repeats module i has order i + 1 |
| CourseManagement.CourseManager.Renumber | backend/src/courses/services/course-management.service.ts:329-331 | each listed module gets one past its last position |

## Left out

**Crypto and transport**

- The post-quantum handshake, key exchange and signing (quiz.gateway.ts:26-68, 85-122, 196-224) are foreign libraries. The handshake's success and the signature check's outcome are inputs, and the score signature is not produced.
- The `validateCodeAnswer` sandbox placeholders are an arbitrary verifier function. It is fixed when the gateway or controller is created. The source's placeholder accepts exactly when every test case expects the text "simulated output".
- Socket emits and room joins are returned as values: the completion event, the `participantLeft` counts and the join reply. The `participantJoined` broadcast is not modelled separately, because it carries the same count as the join reply.

**Concurrency and ordering**

- Async interleavings are not modelled; each handler is one atomic step. The non-awaited `handleTimeUp` and `handleQuizCompletion` run to completion within the calling handler.
- Map and Set iteration order is not modelled. Disconnect visits sessions in an arbitrary order without repeats, and `QuizGateway.DisconnectOrderIrrelevant` shows the order makes no difference.
- QuizGateway.Gateway.FindUserIdBySocketId returns some user recorded with the socket, not necessarily the first in insertion order, because the model does not track insertion order. Socket ids of different users are normally distinct.
- Enrollment.EnrollmentService.GetStudentEnrollments promises each course exactly once but not the source's insertion order, for the same reason.
- Enrollment.EnrollmentService.GetCourseEnrollments promises each student exactly once but not the source's insertion order, for the same reason.

**Outside the modelled core**

- Timestamps (`createdAt`, `updatedAt`, `enrolledAt`, attempt `startTime`/`endTime` as dates) are left out; the clock reading is a parameter. `Date.now()` ids are fresh-id parameters.
- The TensorFlow and ml-matrix recommendation and difficulty models are floating-point heuristics and foreign calls. The module-index prediction they produce is an input to `ReorderContent`.
- The video processing service is foreign I/O. Its result is an input: the variant URLs, or None when it throws.
- `getQuiz`, `getQuizByLesson` and `getCourse` are read-only lookups outside the modelled core.
- Matching a URL against the route patterns (such as "/courses/12" against "/courses/:id") is vue-router's work. The model starts from the matched record's meta.

**Simplifications that parallel the source only in part**

- QuizzesController.Controller.SubmitQuiz omits the float `correctAnswers` ratio of its reply (quizzes.controller.ts:218).
- `Object.assign` with a request body can overwrite any field, including ids, `questions`, `modules` and `quizId`. `PatchQuiz`, `PatchQuestion` and `PatchCourse` model only the declared editable fields, because an untyped body has no stable shape.
- Untyped JSON answers are either one string or a list of strings; numbers, objects and booleans are left out. An absent `choices` or `testCases` list is the empty list.
- QuizGateway.Gateway.HandleTimeUp is a no-op for a participant missing from an existing session. There the source throws, before any change, in a promise nobody awaits.
- ContentType.ToLower folds only the letters A-Z. Other letters that JavaScript lower-cases never produce a table key.
- ContentType.Lookup does not model keys inherited from the object prototype (such as "constructor"), since these are not part of the table.
- Question points are whole, non-negative numbers (`nat`). The source declares `points: number` and never validates it, so it could store fractional or negative points. ScoreInRange, ParticipantScoreInRange, EarnedWithinEligible and ControllerTotals depend on points never being negative.
- Floating-point numbers (scores, prices, durations, orders) are exact reals, so rounding is not modelled.
