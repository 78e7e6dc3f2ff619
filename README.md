# Schulungsportal backend — a Dafny model

This project is a model of the core of the Schulungsportal backend, a training portal.
Participants log in with an access key and then work through courses. A course is made
of modules, and modules can hold quizzes. Administrators issue the keys, can deliver
them by email, and edit the courses. Everything the model proves is stated in the
contracts and lemmas listed below.

The model has these parts.

- `Models` (`models.dfy`) holds the records of `backend/models.py`: the three
  string-valued enums with their wire values, quizzes, modules, courses, the
  create/update payloads, progress documents, quiz attempts, access keys and users. It
  also holds the defaults these records are built with.
- `Grading` (`grading.dfy`) is the scorer of `submit_quiz`. It covers finding the quiz,
  the per-type answer rules, the total and the earned points, the percentage and the
  pass mark. The loop over the answers is a method, proved against the recursive
  definition `EarnedPoints`.
- `CourseStore` (`course_store.dfy`) is the `CourseService` of
  `backend/course_service.py`. It is a class whose fields are the `courses`,
  `module_progress`, `course_progress` and `quiz_attempts` collections. Every service
  operation that writes is a method that updates these fields; the pure lookups
  (`get_course`, `get_courses`, `get_user_course_progress`) are functions that read
  them. Each is specified by pure functions with lemmas about them. These cover course CRUD, the newest-first listing,
  the module operations, the two progress upserts and quiz submission.
- `Email` (`email.dfy`) is the `EmailService` of `backend/email_service.py`. It covers
  the configuration read from the environment, the not-configured guard, the
  access-key mail with its greeting, and the success/failure accounting of a bulk send.
- `Portal` (`portal.dfy`) is the access-key side of `backend/server.py`. It covers the
  token expiry, key validation with its three refusals and the usage count, the user
  login record, the course listing and course detail a key may see, batch generation
  of keys, and delivery of keys by mail. `server.py` has its own simple `Course` record
  (`PortalCourse`), kept apart from the richer one in `models.py`.
- `Wrappers`, `Seqs` and `Text` are small helpers: `Option`/`Result`, first-match
  search, filtering and counting on sequences, and `lower()`/`strip()` on strings.

## Conventions

- **Time.** Time is an integer number of seconds, passed in as `now`.
- **Random values.** uuids and random keys are parameters. Generated keys must be
  distinct and absent from the table (`FreshKeys`).
- **Collections.** `access_keys` is a map from the key string to its document, since the
  server treats `key` as unique. The other collections are sequences in insertion
  order, and `find_one` takes the first match.
- **Updates.** Mongo's `modified_count > 0` is read as "the stored document changed".
- **Email transport.** The SMTP transport is a function `Mail -> bool`. Every mail
  handed to it is appended to `EmailService.attempted`, so the contracts state which
  mails were sent and in what order.
- **Python truthiness** is written out:
  - `max_usage` 0, `expires_days` 0, `count` 0 and a zero token delta all behave like
    absent values;
  - an empty `created_by` or `status` filter is no filter;
  - `name or ""` is `NameOrEmpty`.

These behaviours follow the code, where its comments or the documentation say
otherwise.

- **Essays:** an essay question counts toward the total but never earns points.
- **Repeated answers:** an answer given twice for the same question is scored twice.
- **Quiz limits:** `max_attempts` and the time limit are never enforced.
- **Rounding:** the percentage is not rounded.
- **Unlimited keys:** a `max_usage` of 0 means unlimited.
- **Expiry:** a key is refused only when `expires_at < now`, so a key is still valid at
  its expiry instant.
- **Listing:** `get_user_courses` checks neither whether the key is active nor whether
  it has expired.

## Model

| member | source | states |
|---|---|---|
| Models.ParseCourseStatus | backend/models.py:8-11 | parsing a wire value is the exact inverse of the enum's value on the values it accepts, and rejects every other string |
| Models.ParseModuleType | backend/models.py:13-17 | parsing a module type inverts its wire value and rejects every other string |
| Models.ParseQuestionType | backend/models.py:19-24 | parsing a question type inverts its wire value and rejects every other string |
| Models.CourseStatusMembers | backend/models.py:8-11 | there are exactly three statuses, their wire values are pairwise distinct, and each one round-trips through the parser |
| Models.ModuleTypeMembers | backend/models.py:13-17 | there are exactly four module types, with distinct wire values that round-trip |
| Models.QuestionTypeMembers | backend/models.py:19-24 | there are exactly five question types, with distinct wire values that round-trip |
| Models.NewQuizOption | backend/models.py:27-30 | an option defaults to not correct |
| Models.NewQuizQuestion | backend/models.py:32-39 | a question defaults to 1 point, no options, no correct answer and no explanation |
| Models.NewQuiz | backend/models.py:41-48 | a quiz defaults to an empty description, no questions, a pass mark of 70, and no attempt or time limit |
| Models.NewQuizAnswer | backend/models.py:153-156 | an answer defaults to no selected options and no text |
| Models.NewCourse | backend/course_service.py:16-22 | a created course is a draft at version 1 without modules and without a thumbnail. Its title, description, short description, content, tags, category, difficulty level and estimated hours are the payload's. It records its creator and is created and updated now. |
| Models.NewModule | backend/course_service.py:85-90 | a new module has the given id and order. Its title, description, type, content, required flag and estimated minutes are the payload's, and it is created and updated now. |
| Models.NewAccessKey | backend/models.py:173-182 | a key defaults to active, unused, unlimited, never expiring, valid for all courses and without a creator |
| Text.LowerChar | backend/course_service.py:308 | `lower()` on one character: only upper-case letters change, each to its lower-case partner, and whitespace is kept |
| Text.Lower | backend/course_service.py:308 | `lower()` keeps the length and lowers each character in place |
| Text.Strip | backend/course_service.py:308 | `strip()` never lengthens a string and leaves no whitespace at either end |
| Text.StripExactly | backend/course_service.py:308 | stripping a core without end whitespace from any whitespace padding yields exactly that core |
| Text.StripIdempotent | backend/course_service.py:308 | stripping twice equals stripping once |
| Text.LowerIdempotent | backend/course_service.py:308 | lowering twice equals lowering once |
| Text.NormalizeIdempotent | backend/course_service.py:308 | the text-answer normalisation (lower, then strip) is idempotent |
| Text.ParisExample | backend/course_service.py:308 | " paris ", "PARIS" and "Paris" all normalise to "paris" |
| Grading.FindQuiz | backend/course_service.py:265-277 | a quiz is found only in a module with the requested id, only with the requested quiz id, and never when no module has that id |
| Grading.FindQuizUsesFirstModule | backend/course_service.py:269-274 | only the first module with the requested id is consulted; a later module of the same id is never searched |
| Grading.FindQuestion | backend/course_service.py:284 | the question found is the first one with the answer's id, and none is found exactly when no question has it |
| Grading.CorrectIds | backend/course_service.py:290 | the correct ids are exactly the ids of the options marked correct |
| Grading.FirstCorrect | backend/course_service.py:301 | the true/false reference is the id of a correct option, and there is none exactly when no option is correct |
| Grading.UnknownQuestionEarnsNothing | backend/course_service.py:285-286 | an answer to an unknown question earns nothing |
| Grading.EssayEarnsNothing | backend/course_service.py:289-309 | an answer to an essay question earns nothing |
| Grading.SingleChoiceRule | backend/course_service.py:293-295 | a single-choice answer earns the points exactly when it selects one option and that option is correct |
| Grading.TrueFalseRule | backend/course_service.py:300-304 | a true/false answer earns the points exactly when it selects one option, and that option is the first correct one |
| Grading.MultipleChoiceRule | backend/course_service.py:296-298 | a multiple-choice answer earns the points exactly when every selected id is correct and every correct option is selected |
| Grading.TextInputRule | backend/course_service.py:306-309 | a text-input question without a reference answer is a grading error; otherwise the answer (missing counts as empty) earns the points exactly when it equals the reference after lower and strip |
| Grading.AnswerPoints | backend/course_service.py:284-309 | the points of one answer: none for an unknown question or an essay, the question's points when its type's rule accepts the answer, and an error for a text question without a reference answer. The rules are stated by the `…Rule` lemmas. |
| Grading.SelectionOrderIrrelevant | backend/course_service.py:297 | the multiple-choice rule depends only on the set of selected ids, not on their order or repetition |
| Grading.TotalPointsAppend | backend/course_service.py:280 | the total is additive over a split question list |
| Grading.TotalPoints | backend/course_service.py:280 | the sum of all questions' points, essays included; TotalPointsAppend and EssayCountsTowardTotal state its properties |
| Grading.EarnedPoints | backend/course_service.py:281-309 | the answers' points summed in order, failing with the first answer that fails; ScoreAnswers, EarnedPointsErrSticks and EarnedAtMostTotal state its properties |
| Grading.EssayCountsTowardTotal | backend/course_service.py:280 | an essay's points are part of the total |
| Grading.EarnedPointsErrSticks | backend/course_service.py:283-309 | once an answer fails to grade, the answers after it do not change the outcome |
| Grading.PointsOfAtMostTotal | backend/course_service.py:280 | the points of any set of question ids are at most the total |
| Grading.PointsOfAdd | backend/course_service.py:280-284 | adding an id adds that question's points once, or nothing when the id names no question or is already in the set |
| Grading.AnswerPointsBound | backend/course_service.py:284-309 | one graded answer earns between 0 and its question's points, and 0 for an unknown question |
| Grading.EarnedAtMostAnswered | backend/course_service.py:283-309 | with non-negative points and one answer per question, the points earned are at most those of the questions answered |
| Grading.EarnedAtMostTotal | backend/course_service.py:280-309 | with non-negative points and one answer per question, the points earned are between 0 and the total |
| Grading.ScorePercentage | backend/course_service.py:312 | the score is earned/total*100 for a positive total, and 0 otherwise |
| Grading.ScoreBounds | backend/course_service.py:312 | for 0 <= earned <= total the score lies in [0, 100], and it is 100 exactly when everything was earned |
| Grading.Passed | backend/course_service.py:313 | the pass mark is inclusive: a score equal to the passing score passes |
| Grading.Grade | backend/course_service.py:280-313 | grading fails exactly when scoring an answer fails; otherwise it reports the earned points, the total as the maximum, the percentage, the pass flag and the quiz's pass mark |
| Grading.ScoreAnswers | backend/course_service.py:281-309 | the loop over the answers computes the recursive definition of the earned points, including its error |
| Grading.CorrectIdsAppend | backend/course_service.py:290 | the correct ids of a split option list are those of the first part followed by those of the second, so they keep the options' order |
| Grading.CorrectIdsOfExample | backend/course_service.py:290 | on four example option lists, the correct ids come out in option order |
| Grading.MultipleChoiceExample | backend/course_service.py:296-298 | a multiple-choice answer with all correct ids in another order, or repeated, scores; one missing a correct id, or adding a wrong one, does not |
| Grading.TrueFalseUsesFirstCorrect | backend/course_service.py:293-304 | with two correct options, single choice accepts either one but true/false accepts only the first |
| Grading.SplitQuizGrade | backend/course_service.py:280-313 | in a ten-point quiz of two questions, answering only the first (worth p) correctly earns p of 10, and the score and pass flag follow from p |
| Grading.PassMarkIsInclusive | backend/course_service.py:312-313 | at a pass mark of 70, a ten-point quiz whose answers earn 7 points scores exactly 70.0 and passes, and one earning 6 points scores 60.0 and fails |
| Grading.RepeatedAnswerScoresTwice | backend/course_service.py:283-298 | two answers to the same question earn its points twice, so the score can exceed 100 |
| Grading.EmptyDefaultQuizFails | backend/course_service.py:312-313 | a default quiz without questions scores 0 of 0 and fails its default pass mark of 70 |
| Grading.EmptyQuizEarnsNothing | backend/course_service.py:283-286 | without questions, no answer earns anything |
| CourseStore.FindCourse | backend/course_service.py:31-36 | `find_one` by id: a hit is the first course with the id, and a miss means no course has it |
| CourseStore.FindCourseUnique | backend/course_service.py:31-36 | with unique ids every stored course is found at its own position |
| CourseStore.RemoveCourseAt | backend/course_service.py:53-56 | removing the found course keeps the ids unique and leaves exactly the courses with a different id |
| CourseStore.ApplyCourseUpdate | backend/course_service.py:38-46 | every field given in the update replaces the stored one, every absent field is kept, `updated_at` becomes now, and id, modules, thumbnail, creator, creation time and version are never touched |
| CourseStore.EmptyCourseUpdate | backend/course_service.py:40-41 | an update with no fields only changes the update time |
| CourseStore.CourseMatches | backend/course_service.py:60-64 | a course matches when no status is given or it has that status, and when no creator, or an empty one, is given or it has that creator; QueryCourses states the listing built on it |
| CourseStore.InsertNewestFirst | backend/course_service.py:66 | inserting into a newest-first list keeps it newest-first, and the result is a permutation of the list plus the new course |
| CourseStore.SortNewestFirst | backend/course_service.py:66 | sorting orders by `updated_at`, descending, and is a permutation |
| CourseStore.QueryCourses | backend/course_service.py:58-67 | the listing is newest-first and a permutation of the matching courses, and a course is in it exactly when it is stored and matches the status and creator filters; both filters default to none |
| CourseStore.FindModule | backend/course_service.py:113 | the module found is the first with the id, and none is found exactly when no module has it |
| CourseStore.RemoveModules | backend/course_service.py:121-124 | `$pull` leaves exactly the modules with a different id and shortens the list exactly when some module had the id |
| CourseStore.RemoveModulesKeepsOrder | backend/course_service.py:121-124 | `$pull` distributes over concatenation, so it keeps the remaining modules in their order |
| CourseStore.ApplyModuleUpdate | backend/course_service.py:107-110 | each given field of a module update replaces the stored one, absent ones are kept, the id and creation time are kept, and `updated_at` becomes now |
| CourseStore.SetModuleOrder | backend/course_service.py:140-143 | one positional `$set` changes only the order of the first module with the id, and nothing when there is none |
| CourseStore.ApplyOrders | backend/course_service.py:136-143 | reordering keeps the number of modules and their ids in place |
| CourseStore.LastOrderForNone | backend/course_service.py:136-143 | a module id gets no new order exactly when no request names it |
| CourseStore.LastOrderForLast | backend/course_service.py:136-143 | the new order of a module id is the order of the last request naming it |
| CourseStore.ApplyOrdersEffect | backend/course_service.py:136-143 | with unique module ids, each module ends with the order of the last item naming it, or its old order, and nothing else about it changes |
| CourseStore.EntryError | backend/course_service.py:137-138 | an entry raises exactly when it lacks a key: `id` when that is missing, otherwise `order` |
| CourseStore.FirstMalformed | backend/course_service.py:136-138 | the position found holds an entry that raises, and every entry before it, or every entry when none is found, carries both keys |
| CourseStore.Items | backend/course_service.py:137-143 | one order item per entry, carrying the entry's id and order wherever it has both keys |
| CourseStore.FindModuleProgress | backend/course_service.py:165-169 | the (user, course, module) lookup finds a document with that key, or reports none |
| CourseStore.MarkModule | backend/course_service.py:150-169 | the update of an existing progress document: completion and access time are set, the score only when one is given, the completion time only when completed; UpsertModuleProgressEffect states it |
| CourseStore.UpsertModuleProgress | backend/course_service.py:150-169 | the upsert of a module-progress document: an update of the document with the key, or an insert of a new one; UpsertModuleProgressEffect states its effect |
| CourseStore.UpsertModuleProgressEffect | backend/course_service.py:148-169 | the module upsert keeps one document per key, leaves the others alone, and sets completion and access time. It writes the score only when given and the completion time only when completed. An insert leaves absent fields empty; an update keeps the old values. |
| CourseStore.FindCourseProgress | backend/course_service.py:227-231 | the (user, course) lookup finds a document with that key, or reports none |
| CourseStore.CompletedCount | backend/course_service.py:188-192 | the count of completed module documents for the user and course |
| CourseStore.ProgressPercentage | backend/course_service.py:195 | the percentage times the module count is the completed count times 100, and it reaches 100 exactly when all modules are completed |
| CourseStore.OverallScore | backend/course_service.py:198-212 | there is no average exactly when no completed document carries a score; otherwise it is the sum of those scores divided by their number |
| CourseStore.UpsertCourseProgress | backend/course_service.py:214-231 | the upsert of the (user, course) progress document; UpsertCourseProgressEffect states its effect |
| CourseStore.UpsertCourseProgressEffect | backend/course_service.py:214-231 | the course upsert keeps one document per key, leaves the others alone and writes the new counts. `started_at` is written only on insert, and `completed_at` when the percentage reaches 100; otherwise the old values are kept. |
| CourseStore.RefreshCourseProgress | backend/course_service.py:176-231 | the course-progress refresh, skipped for a missing course or one without modules; RefreshCourseProgressEffect states its effect |
| CourseStore.RefreshCourseProgressEffect | backend/course_service.py:176-231 | a missing course or one without modules leaves progress unchanged; otherwise the user's course document shows the module count, the completed count, their percentage and the average score, and is marked complete once everything is completed |
| CourseStore.SubmitErrorMessage | backend/course_service.py:262-277 | the text "Course not found" is given exactly for a missing course, and "Quiz not found" exactly for a missing quiz |
| CourseStore.SubmitOutcome | backend/course_service.py:259-313 | submission fails with "course not found" exactly when no course has the id, with "quiz not found" exactly when the course is there but the quiz is not, with a grading failure only when grading failed, and otherwise yields the quiz's grade; the error text of the first two is "Course not found" and "Quiz not found" respectively |
| CourseStore.AttemptRecord | backend/course_service.py:316-325 | the stored attempt carries its id, the user, course, module and quiz ids, the percentage, the total points and the pass flag; it has no time taken and starts and completes now |
| CourseStore.CourseService.constructor | backend/course_service.py:16-342 | a new service starts with empty collections |
| CourseStore.CourseService.CreateCourse | backend/course_service.py:16-29 | the new draft course is appended and returned, and nothing else changes |
| CourseStore.CourseService.GetCourse | backend/course_service.py:31-36 | a stored course with the id, and none exactly when no course has it |
| CourseStore.CourseService.UpdateCourse | backend/course_service.py:38-51 | a missing course gives none; otherwise the first course with the id is replaced by its updated version. The call returns that version exactly when the document changed. |
| CourseStore.CourseService.DeleteCourse | backend/course_service.py:53-56 | the result is true exactly when a course had the id, that course is removed, and every other course stays |
| CourseStore.CourseService.PublishCourse | backend/course_service.py:69-71 | a missing course gives none and changes nothing. Otherwise the first course with the id gets status published and update time now, and the call returns that course exactly when the document changed. |
| CourseStore.CourseService.UnpublishCourse | backend/course_service.py:73-75 | a missing course gives none and changes nothing. Otherwise the first course with the id gets status draft and update time now, and the call returns that course exactly when the document changed. |
| CourseStore.CourseService.GetCourses | backend/course_service.py:58-67 | the listing is newest-first and a permutation of the stored courses that match the filters |
| CourseStore.CourseService.AddModule | backend/course_service.py:78-105 | a missing course gives none. Otherwise the new module, ordered after the existing ones, is appended to that course, whose update time becomes now, and the module is returned. |
| CourseStore.CourseService.UpdateModule | backend/course_service.py:107-117 | when both the course and the module exist, the first module with the id is updated, and the result says whether the course document changed; otherwise nothing changes and the result is false |
| CourseStore.CourseService.DeleteModule | backend/course_service.py:119-126 | the course's modules with the id are pulled, and the result says whether the course changed; a missing course gives false |
| CourseStore.CourseService.ReorderModules | backend/course_service.py:128-145 | a missing course gives false and changes nothing. Otherwise the entries before the first one lacking `id` or `order` are applied in sequence. If such an entry exists, the call fails with that key's `KeyError`, and the earlier updates stay applied; if not, the result is true. |
| CourseStore.CourseService.UpdateModuleProgress | backend/course_service.py:148-174 | the module-progress upsert followed by the course-progress refresh, always returning true; `completed` defaults to true and `score` to none |
| CourseStore.CourseService.GetUserCourseProgress | backend/course_service.py:233-257 | the user's course document, if any, with exactly the user's module documents for that course |
| CourseStore.CourseService.SubmitQuiz | backend/course_service.py:259-342 | returns the submission outcome and never touches the courses. On an error nothing is stored. On success one attempt is appended, the module's progress is upserted with `completed` set to the pass flag and the percentage as its score, and the course progress is refreshed. |
| Email.Configured | backend/email_service.py:31-36 | SMTP counts as configured exactly when server, username, password and sender address are all set and non-empty |
| Email.Greeting | backend/email_service.py:112 | "Liebe/r " + name + "," for a non-empty name, the generic salutation otherwise; GreetingInjective and NoNameGreeting state its properties |
| Email.GreetingInjective | backend/email_service.py:112 | different non-empty names get different greetings |
| Email.NoNameGreeting | backend/email_service.py:112 | an empty name gets the generic greeting |
| Email.AccessKeyMail | backend/email_service.py:93-204 | the access-key mail goes to the recipient, carries the key, the fixed subject, the sender header and the name's greeting |
| Email.BulkMails | backend/email_service.py:346-351 | the per-recipient mails of a bulk send, in recipient order; BulkMailsLength and BulkMailsAt state them |
| Email.BulkMailsLength | backend/email_service.py:346-351 | a bulk send hands one mail per recipient to the transport |
| Email.BulkMailsAt | backend/email_service.py:346-351 | mail i carries key i to recipient i with recipient i's greeting |
| Email.Deliveries | backend/email_service.py:346-352 | recipient i is delivered exactly when the service is configured and the transport accepts mail i |
| Email.Tally | backend/email_service.py:339-366 | the report's total is the number of recipients; TallyCounts and the lemmas after it state the other counts and the failures |
| Email.TallyCounts | backend/email_service.py:339-366 | every recipient is counted once as a success or a failure, there is one failure entry per failure, and each carries the generic error |
| Email.TallyAppend | backend/email_service.py:346-366 | the tally of a split batch is the sum of the tallies, with the failures concatenated |
| Email.TallyStep | backend/email_service.py:352-360 | one more recipient adds exactly one success, or one failure with its entry |
| Email.TallyExtremes | backend/email_service.py:339-366 | nothing fails exactly when every mail went out, and nothing succeeds exactly when none did |
| Email.TallyListsEveryFailure | backend/email_service.py:355-360 | every undelivered recipient is listed among the failures |
| Email.TallyFailuresAreUndelivered | backend/email_service.py:355-360 | every listed failure belongs to an undelivered recipient |
| Email.UnconfiguredBulkFailsAll | backend/email_service.py:105-106 | without SMTP configuration every recipient of a bulk send fails |
| Email.EmailService.constructor | backend/email_service.py:21-39 | the service is configured exactly when server, username, password and sender address are all given; the sender name defaults to "Schulungsportal"; SSL is on unless the setting lowers to something other than "true" |
| Email.EmailService.From | backend/email_service.py:62 | the From header of the configured sender |
| Email.EmailService.SendEmail | backend/email_service.py:41-91 | an unconfigured service sends nothing and reports failure; otherwise the mail goes to the transport and its answer is the result |
| Email.EmailService.SendAccessKeyEmail | backend/email_service.py:93-112 | an unconfigured service sends nothing; otherwise exactly the access-key mail is handed over and its outcome returned; the name defaults to "" |
| Email.EmailService.SendBulkAccessKeys | backend/email_service.py:325-369 | lists of different lengths are rejected before anything is sent. Otherwise the report is the tally of the deliveries, and exactly the per-recipient mails, in order, reach the transport. |
| Portal.TokenExpiry | backend/server.py:121-127 | a token expires `now` plus the given delta, or 15 minutes from now when the delta is absent or zero |
| Portal.CreateAccessToken | backend/server.py:121-129 | the token names its subject and carries that expiry |
| Portal.Expired | backend/server.py:199 | a key is expired exactly when it has an expiry and that lies strictly before now; Admit states its place among the checks |
| Portal.LimitReached | backend/server.py:206 | a key is exhausted only when it has a non-zero limit and its usage has reached it |
| Portal.Admit | backend/server.py:183-210 | a key is refused as invalid exactly when it is unknown or inactive, as expired exactly when its expiry is strictly in the past, as exhausted exactly when its limit is reached, and admitted exactly when none of these holds |
| Portal.Redeem | backend/server.py:212-216 | redeeming changes only the candidate key; an admitted key's usage grows by one, and a refused redemption changes nothing |
| Portal.RedeemKeepsLimits | backend/server.py:199-216 | redemption never takes a key's usage past its limit |
| Portal.ZeroLimitIsUnlimited | backend/server.py:206 | an active, unexpired key with no limit or a limit of 0 is always admitted |
| Portal.ExpiryIsExclusive | backend/server.py:199 | a key is still valid at its expiry instant |
| Portal.AdmissionsCountUsage | backend/server.py:180-216 | after any sequence of validations a key's usage is its initial usage plus the number of admissions, and a limited key admits at most (limit − usage) more |
| Portal.RedeemAllKeepsLimits | backend/server.py:180-216 | any sequence of validations keeps the set of keys and keeps every usage within its limit |
| Portal.FindUser | backend/server.py:218-221 | the user found has the key, and none is found exactly when no user has it |
| Portal.Login | backend/server.py:218-231 | login stamps `last_login` on the key's user, or inserts a new user for the key |
| Portal.LoginEffect | backend/server.py:218-231 | login keeps one user per key, leaves every other user alone, and leaves a user with the key whose last login is now; an existing user keeps its id and creation time |
| Portal.NewPortalCourse | backend/server.py:67-75 | a server course defaults to no content, unpublished and without modules |
| Portal.BatchExpiry | backend/server.py:401-403 | a batch expires `expires_days` days from now, or never when the days are absent or zero |
| Portal.Visible | backend/server.py:265-272 | a key may see a course exactly when the course is published and the key names no courses or names this one; GetUserCourses and GetCourseDetail state the responses built on it |
| Portal.BatchSize | backend/server.py:406 | `range(count)` yields count keys, and none for a negative count |
| Portal.Issue | backend/server.py:406-420 | the key table after inserting the batch's keys one by one; IssueKeySet, IssueDomain and IssueValues state its effect |
| Portal.IssuedKey | backend/server.py:406-416 | an issued key is active and unused, and carries the batch's expiry, limit, courses, creator and creation time |
| Portal.IssueKeySet | backend/server.py:406-420 | after issuing, a key is in the table exactly when it was stored before or is one of the issued keys |
| Portal.IssueDomain | backend/server.py:406-420 | issuing fresh keys adds exactly those keys and grows the table by one document per key |
| Portal.IssueValues | backend/server.py:406-420 | issuing leaves the existing documents unchanged and stores key i with id i and the batch's fields |
| Portal.IssueKeepsWellFormed | backend/server.py:406-420 | newly issued keys keep every usage within its limit |
| Portal.GeneratedMessage | backend/server.py:426 | the success text of a generation |
| Portal.RequestedCount | backend/server.py:453 | the count the request gives, or the number of recipients when it gives none or 0 |
| Portal.NameOrEmpty | backend/server.py:487 | a missing name is the empty string |
| Portal.RecipientData | backend/server.py:485-490 | one recipient entry per request entry, with its address and its name or "" |
| Portal.PortalServer.constructor | backend/server.py:180-570 | a new server starts with empty tables |
| Portal.PortalServer.ValidateAccessKey | backend/server.py:180-251 | a refused key changes nothing and returns its refusal message. An admitted key counts one more use and logs its user in, and the call returns success with a 30-minute token for the key. |
| Portal.PortalServer.CreateCourse | backend/server.py:353-369 | the admin's course is appended to the course table as given and returned; keys and users are untouched, and every stored key that may see the course finds it in its listing |
| Portal.PortalServer.GetUserCourses | backend/server.py:253-283 | an unknown key gives 404; otherwise exactly the published courses the key covers, where a key naming no courses covers them all |
| Portal.PortalServer.GetCourseDetail | backend/server.py:285-310 | 404 exactly when no published course has the id, 403 only for a stored key that names courses but not this one, and otherwise a published course with the id that the key may see |
| Portal.PortalServer.DetailMatchesListing | backend/server.py:253-310 | for a stored key, a course's detail is available exactly when a course with that id is in the key's listing, and it is then one of the listed courses |
| Portal.PortalServer.GenerateAccessKeys | backend/server.py:385-437 | more than 100 keys are refused with 400 and nothing stored; otherwise the requested number of fresh keys (none for a negative count) are stored with the batch's fields and returned. The count defaults to 1; by default a batch has no expiry, no usage limit and no courses. |
| Portal.PortalServer.IssueKeys | backend/server.py:406-420 | the insert loop stores exactly the issued keys |
| Portal.PortalServer.SendAccessKeysEmail | backend/server.py:439-509 | more than 50 recipients, or a count different from their number, are refused with 400 before anything is stored or sent. Otherwise one fresh key per recipient is stored, key i is mailed to recipient i, and the keys stay stored whatever the mail outcome. The response is success with the fixed message "Access-Keys erfolgreich generiert und versendet", the tally of those deliveries, and the number of keys. |
| Portal.PortalServer.SendSingleAccessKey | backend/server.py:511-570 | the key is stored and mailed. When the mail goes out the key stays and the call succeeds; when it does not, the key is removed again, so the table is as before, and a 500 is returned. |

## Left out

- Persistence and concurrency are not modelled. MongoDB becomes in-memory fields, each
  service call is one atomic step, and concurrent requests are not modelled.
- The ISO-8601 round trip of timestamps is not modelled. Naive and aware datetimes are
  not modelled either, nor the errors Python raises when it compares them.
- Floating point is not modelled: percentages and averages are exact `real`s. In
  particular, whether `completed/total*100` reaches exactly 100.0 in binary floating
  point is assumed and not proved.
- JWT signing and decoding, `get_current_user`, `get_current_admin`, bcrypt hashing,
  admin login and the admin session length are not modelled. Only the expiry that
  `create_access_token` puts into a token is modelled.
- SMTP, MIME assembly and the HTML and plain-text bodies of the access-key mail are not
  modelled. They are replaced by the transport function and the `Mail` record, which
  holds sender, recipient, subject, greeting and key.
- Email.EmailService.constructor: `SMTP_PORT` and its `int()` parse are not modelled.
  A non-numeric setting makes `int()` raise `ValueError` at construction, and, because
  the service is built at import, the module then fails to load; the model's
  constructor never fails.
- The logging calls are not modelled.
- Email.EmailService.SendBulkAccessKeys: the `except` branch of the bulk loop is not
  modelled. In the model a send reports an outcome and never raises, so every
  failure carries the generic error text.
- The HTTP routing, the FastAPI dependencies and the pydantic validation of request
  bodies (for example `EmailStr`) are not modelled.
- The 500 responses that wrap unexpected exceptions are not modelled. The server's
  startup seeding of a default admin and debug keys is not modelled.
- The admin routes `get_all_courses` (`server.py:371-383`) and `get_access_keys`
  (`server.py:572-584`) are not modelled. Each reads its whole collection directly
  from the database and returns it, so in the model it would be the `courses` or
  `accessKeys` field itself. Besides `CreateCourse`, nothing in the server writes
  `courses`, so `GetUserCourses` and `GetCourseDetail` are stated over whatever
  course table is given.
- `backend/test_smtp.py` and `backend_test.py` are not part of this model.
- CourseStore.AttemptRecord: the `answers` field of a quiz attempt is not modelled,
  because the service always stores it empty.
- CourseStore.CourseService.UpdateModuleProgress: `time_spent_minutes`, `attempts` and
  the document `id` of `ModuleProgress` are not modelled, because the upsert never
  writes them.
- CourseStore.RefreshCourseProgress: the document `id` of `CourseProgress` is not
  modelled, because the course-progress upsert never writes it either.
- Grading.TextInputRule: `lower()` maps only the ASCII capitals and the Latin-1
  capitals U+00C0 to U+00DE (except U+00D7), not the full Unicode case mapping.
  `strip()` removes exactly the characters Python's `str.isspace` accepts.
- Text.LowerChar, Text.Lower: `lower()` maps only the ASCII capitals and the Latin-1
  capitals U+00C0 to U+00DE (except U+00D7). Other capitals, such as Greek 'Σ', stay
  unchanged, while Python lowers them, so answers differing only in such letters match
  in Python but not in the model.
- Grading.AnswerPoints: a `selected_options` value of another type than a list of
  strings is not modelled. A `null` present in the request makes `len()` or `set()`
  raise `TypeError` in Python. A string is taken character by character, so "a"
  acts like ["a"]. The model's selection is always a list of ids, absent meaning [].
- Grading.TextInputRule: a `text_answer` that is present but `null` in the request is
  not modelled. Such an answer makes Python's `.lower()` fail, while the model treats
  every missing text as "".
- Grading.ScoreAnswers: requests whose answer dictionaries lack `question_id` are not
  modelled. Such a request raises `KeyError` in Python; the model's answers always
  carry an id.
- Portal.PortalServer.ValidateAccessKey: duplicate key documents cannot arise, because
  `access_keys` is modelled as a map indexed by `key`. `find_one` on duplicates is
  therefore not modelled.
- Portal.PortalServer.GenerateAccessKeys: the query parameters with defaults are
  modelled as trailing parameters with Dafny default values, so they follow the
  admin address, keys and ids instead of coming first.
- Portal.PortalServer.SendSingleAccessKey: its defaulted query parameters are likewise
  trailing parameters with default values.
- CourseStore.CourseService.ReorderModules: an entry whose `id` or `order` is present
  with a value of another type is not modelled, because the model's entries are typed.
- Portal.PortalServer.GenerateAccessKeys: `secrets.token_urlsafe` and `uuid4` are
  modelled as parameters. The requirement that the keys are distinct and not yet
  stored (`FreshKeys`) stands in for their randomness.
- Portal.PortalServer.SendAccessKeysEmail: the same applies to the keys of a bulk send.
- Portal.PortalServer.SendSingleAccessKey: the same applies to its one key, which must
  not be stored yet. On a collision the server's `delete_one` by key could remove the
  older document instead, which the model does not capture.
- CourseStore.CourseService.CreateCourse: a new course's uuid is modelled only as a
  parameter that no stored course already has.
