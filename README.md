# Skillbridge assessment engine in Dafny

A Dafny model of the assessment engine of Skillbridge, a Django job board
for students and employers, together with the few validation rules around
it. The model covers these parts:

- **Selection and freezing** (`services.dfy`). A blueprint's rule document
  and a skill set become a frozen payload of questions, and of tasks for
  gigs. The internship path takes skill-matched MCQs backfilled by untagged
  ones, then short answers, then at most one code question. The gig path
  runs one loop over the sections. A new session row is then built in the
  `invited` state.
- **Taking a session** (`views_take.dfy`). The status moves invited →
  started → submitted. Non-blank answers are upserted once per
  `(ref_type, ref_id)`. Submission is guarded by "already submitted" and by
  "nothing to submit".
- **Scoring** (`scoring.dfy`). MCQs are compared trimmed and
  case-insensitive. Short answers, code answers and tasks get a placeholder
  score. A report is built from the total, per-section buckets and
  per-skill buckets, and at most one report is stored per session.
- **The schema** (`assessment_models.dfy`): ranges, defaults, uniqueness
  and one-to-one links. `Store` holds the three tables the engine writes.
- **The job closing rule and applications** (`job_models.dfy`).
- **The posting form** (`job_forms.dfy`).
- **The signup checks** (`account_forms.dfy`).

`wrappers.dfy` holds `Option` and `Result`. `text.dfy` holds string
operations modelled on Python's `strip`, `lower`, `endswith`, `in` and
`str(int)`.

Randomness (`random.shuffle`, `order_by("?")`) is a parameter: each pool
comes with a caller-supplied permutation of its positions, and every
property is proved for all permutations. Clock readings are integer
parameters. Query sets are filters over sequences.

The source's state-changing loops are Dafny methods with loop invariants.
These loops are the two answer loops in `assessment_take`, the two scoring
loops, the section loop of `pick_for_gig` and the per-skill loop. Most are
proved against a back-recursive specification function. The per-skill
loop (`CreditSkills`) is proved against the closed-form map `Credit`. The
list comprehensions of the source are plain functions. The lemmas then
state what the specification functions mean on their own terms: reference
sums, bucket membership, and lookups after an upsert.

Two e-mail steps can raise after a row is already stored. The first is the
invitation `send_mail` after the session is created. The second is the
preparation of the report e-mail (`render_to_string` and the recipient
lookup) after the report is created. Their success is a boolean input
(`inviteSent`, `mailPrepared`). When it is false, the stored row stays and
the call reports an error.

## Model

| member | source | states |
|---|---|---|
| Text.StripEmptyIffBlank | assessments/views_take.py:47-48 | a stripped answer is empty exactly when every character of it is whitespace, so only all-blank answers are dropped |
| Text.StripIdempotent | assessments/scoring.py:31-32 | stripping a stripped string changes nothing, so an answer stored stripped normalises the same way |
| Text.Decimal | assessments/views_take.py:45 | the decimal rendering of an id is a non-empty string of digits |
| Text.DecimalInjective | assessments/views_take.py:45 | distinct ids have distinct decimal renderings |
| AssessmentModels.NewBlueprint | assessments/models.py:28-30 | a blueprint saved without a duration gets 60 minutes, which lies in the validated range 10..240 |
| AssessmentModels.NewQuestion | assessments/models.py:40-49 | a question saved with only its required fields has difficulty 1 (inside 1..3), section "technical" and is active |
| AssessmentModels.NewResponse | assessments/models.py:82-88 | a new response has a null `is_correct` and score 0 and carries exactly the given key and answer |
| AssessmentModels.FindByToken | assessments/views_take.py:16 | the lookup finds the first row with the token, or reports none exactly when no row has it |
| AssessmentModels.TokenResolvesUniquely | assessments/models.py:76 | with unique tokens, a token lookup resolves to the one row that carries the token |
| AssessmentModels.FindItem | assessments/views_take.py:49-54 | finds the first response of the session for the item, or none exactly when the session has no response for it |
| AssessmentModels.UpsertLookupSame | assessments/views_take.py:49-54 | after `update_or_create` the item's response holds the new answer; an existing row keeps its other fields, and a new row starts unscored |
| AssessmentModels.UpsertLookupOther | assessments/views_take.py:49-54 | an upsert leaves the response of every other session or item as it was |
| AssessmentModels.UpsertKeepsOnePerItem | assessments/models.py:82-88 | upserting keeps at most one response per (assessment, ref_type, ref_id), a uniqueness the schema itself does not declare |
| AssessmentModels.CountRowsPositive | assessments/views_take.py:108-109 | a session's response count is positive exactly when `responses.exists()` |
| AssessmentModels.Store.constructor | assessments/models.py:70-95 | empty tables satisfy every constraint |
| AssessmentModels.Store.InsertAssessment | assessments/models.py:72-76 | an insert of a row whose timestamps fit its status succeeds exactly when the id, the token and the application are all unused, appends the row on success, and keeps the constraints |
| AssessmentModels.Store.UpdateAssessment | assessments/views_take.py:21-24 | saving a row with its keys unchanged and timestamps that fit its status replaces exactly that row and keeps the constraints, including that every row's timestamps fit its status |
| AssessmentModels.Store.UpdateOrCreate | assessments/views_take.py:49-54 | the response table becomes the upsert of the old one, and the other tables stay the same |
| AssessmentModels.Store.InsertReport | assessments/models.py:91 | a report insert succeeds exactly when the session has no report, and appends it on success |
| Services.FreezeQuestionExactly | assessments/services.py:19-29 | two questions freeze alike exactly when they agree on id, qtype, text, choices, language, starter code, tests and section; the answer key never enters the payload |
| Services.FreezeTaskExactly | assessments/services.py:32-41 | two tasks freeze alike exactly when they agree on id, ttype, title, instructions, artifact type, rubric and max score; the rubric is copied |
| Services.Filter | assessments/services.py:51 | a query filter keeps exactly the rows satisfying the condition, and no more rows than the table has |
| Services.Sample | assessments/services.py:57-58 | a shuffled prefix holds min(k, pool size) items, all taken from the pool |
| Services.SampleKeepsDistinct | assessments/services.py:57-58 | a shuffled prefix of a pool with distinct ids has distinct ids |
| Services.McqPoolMembers | assessments/services.py:51-56 | the MCQ pool is the active skill-matched MCQs, plus the active untagged MCQs exactly when the matched ones fall short of the total |
| Services.McqShortfall | assessments/services.py:50-58 | fewer MCQs than `rules.get("mcq", 12)` are chosen exactly when matched and untagged MCQs together are fewer |
| Services.McqPoolDistinct | assessments/services.py:51-56 | the matched and untagged sets are disjoint, so no question id appears twice in the pool |
| Services.InternshipParts | assessments/services.py:61-73 | at most `rules.get("short", 2)` short answers; at most one code question and none unless code is enabled; a code candidate's language is in the list when the list is non-empty |
| Services.ShortPoolDistinct | assessments/services.py:62 | the short-answer pool has distinct ids |
| Services.CodePoolDistinct | assessments/services.py:69-72 | the code pool has distinct ids |
| Services.PickForInternship | assessments/services.py:44-75 | the payload has the MCQ count, then the short count, then the code count of items; each part is frozen from its own pool, in that order; with distinct bank ids no id repeats |
| Services.PickForGig | assessments/services.py:78-104 | the section loop produces exactly the per-section concatenation of frozen questions and of frozen tasks |
| Services.SectionContribution | assessments/services.py:82-102 | a section contributes at most `count` (default 1) items; only upload/critique sections give tasks and only mcq/short/code sections give questions |
| Services.SectionQuestionsDistinct | assessments/services.py:95-102 | a section's questions have distinct ids |
| Services.GigWithinBudget | assessments/services.py:82-104 | the gig payload holds at most the sum of the question sections' counts as questions, and of the task sections' counts as tasks |
| Services.GigQuestionsEligible | assessments/services.py:95-102 | every frozen gig question comes from an active question of some question section's type that passes that section's skill and language filters |
| Services.GigTasksEligible | assessments/services.py:86-93 | every frozen gig task comes from an active task of some task section's type, of the blueprint's role when one is set, and sharing a skill or untagged when the skill set is non-empty |
| Services.TaskPoolMembers | assessments/services.py:86-92 | a task pool holds exactly the bank tasks that pass the type, role and skill filters |
| Services.ChosenSkillsTakePrecedence | assessments/services.py:120-128 | chosen skills, when any exist for the application, decide the skills whatever the profile says; otherwise the profile's skills are used |
| Services.CreateAssessmentForApplication | assessments/services.py:112-162 | a row is created exactly when token and application are unused; the call succeeds exactly when, in addition, the invitation is sent, and a failed invitation leaves the row stored; the new row is `invited`, unstamped, has the blueprint's duration, and holds the internship payload with no tasks, or for any other kind the gig payload |
| Services.ChosenNamesDistinct | assessments/models.py:110-114 | under the uniqueness of (application, skill), the chosen skill names of an application are as many as its chosen rows |
| Scoring.FindActive | assessments/scoring.py:21-25 | the question found for a response is an active bank question with that id; none is found only when every question with that id is inactive |
| Scoring.Rescore | assessments/scoring.py:24-69 | scoring a row never changes its key or its answer |
| Scoring.RescoreRows | assessments/scoring.py:24-69 | scoring keeps the number of response rows |
| Scoring.RescoreRules | assessments/scoring.py:25-69 | a task row scores 5; a row with no active question is untouched; an MCQ scores 10 exactly when the trimmed lower-cased answer equals the key, else 0, with `is_correct` agreeing; short and code rows score 5 |
| Scoring.RescoreRowsFrame | assessments/scoring.py:10-69 | rows of other sessions are unchanged, every row keeps its key and answer, and one response per item still holds |
| Scoring.ContributionBounds | assessments/scoring.py:34-55 | a row adds between 0 and 10 to the question total, and only question rows of the session add anything |
| Scoring.QuestionTotalBounds | assessments/scoring.py:36-71 | the question total lies between 0 and 10 times the number of question rows |
| Scoring.TotalAtMostMax | assessments/scoring.py:71-72 | the report total is non-negative and never exceeds `max_score`, and the summary shows the total |
| Scoring.TotalIsStoredScores | assessments/scoring.py:28-67 | the report total is the sum of the `score` values written back to the counted rows: scored question rows and task rows |
| Scoring.CreditGet | assessments/scoring.py:38-39 | crediting a skill set adds the points to each of its skills in full and leaves other keys alone |
| Scoring.SkillBucket | assessments/scoring.py:38-39 | a skill has a bucket exactly when some scored question row carries it; its value is the sum of the full scores of those rows |
| Scoring.SkillMapMeaning | assessments/scoring.py:38-58 | the same, for all skills at once |
| Scoring.SectionBucket | assessments/scoring.py:15-56 | a section key exists exactly when it is technical, hr or aptitude or some scored row's question lies in it; its value is the sum of those rows' scores |
| Scoring.QuestionSectionsMeaning | assessments/scoring.py:15-56 | the same, for all section keys at once |
| Scoring.TaskSectionsClosedForm | assessments/scoring.py:62-69 | the task loop adds 5 per task row under `tasks`, and adds the key only when task rows exist |
| Scoring.PerSectionMeaning | assessments/scoring.py:62-78 | the report's `per_section` holds the three initial keys, every hit section, and `tasks` exactly when task rows exist, each with its reference sum |
| Scoring.PerSkillMeaning | assessments/scoring.py:77 | the report's `per_skill` is the skill buckets when some skill was hit, and `{"No skills": 0}` otherwise |
| Scoring.NormalizeSpacedLower | assessments/scoring.py:31 | `" b "` normalises to `"b"` |
| Scoring.NormalizeUpper | assessments/scoring.py:32 | `"B"` normalises to `"b"` |
| Scoring.McqTrimmedCaseInsensitive | assessments/scoring.py:29-34 | the answer `" b "` to an MCQ with key `"B"` scores full marks and is marked correct |
| Scoring.FullScoreToEachSkill | assessments/scoring.py:38-39 | a correct MCQ tagged python and sql puts the full 10 in both buckets rather than splitting it |
| Scoring.CreditSkills | assessments/scoring.py:38-39 | the loop over a question's skills yields exactly the credited map |
| Scoring.NoQuestionRows | assessments/scoring.py:17-19 | with no question rows the question total and count are 0, there are no skill buckets, and the sections stay at their initial values |
| Scoring.ScoreQuestionRow | assessments/scoring.py:25-59 | one question row: its question, its rescored row and its points agree with the specification |
| Scoring.QuestionIteration | assessments/scoring.py:24-59 | one loop iteration updates the rescored row and both bucket maps as the one-row steps say |
| Scoring.ScoreQuestionRows | assessments/scoring.py:10-59 | the question loop yields the question total, the question-row count, `per_skill` and `per_section`; it rescores exactly the session's question rows |
| Scoring.ScoreTaskRows | assessments/scoring.py:62-69 | the task loop adds 5 per task row to the total and the `tasks` bucket, and completes the rescoring of all rows |
| Scoring.ScoreRows | assessments/scoring.py:9-72 | all rows of the session are rescored and the computed report equals the reference report |
| Scoring.Score | assessments/scoring.py:9-94 | a report is stored exactly when the session had none, and it is the reference report; rows are rescored either way; afterwards the session has a report; the call succeeds exactly when a report was stored and the report e-mail was prepared, and otherwise names which of the two failed |
| ViewsTake.BeginTransition | assessments/views_take.py:21-24 | taking an invited session starts it and stamps `started_at`; any other session is unchanged; a second take changes nothing; only status and start time change |
| ViewsTake.FinishTransition | assessments/views_take.py:114-116 | submitting is an allowed status step that keeps the timestamps consistent, nothing leads back out of `submitted`, and beginning a submitted session changes nothing |
| ViewsTake.FieldNameInjective | assessments/views_take.py:45-64 | distinct items (kind and id) have distinct form field names, so one posted field answers at most one item |
| ViewsTake.SavedCountBound | assessments/views_take.py:39-82 | `response_count` is at most the number of frozen questions plus tasks |
| ViewsTake.SaveKeepsOnePerItem | assessments/views_take.py:44-79 | the answer loops keep at most one response per item |
| ViewsTake.SaveStoresAnswer | assessments/views_take.py:44-75 | for each frozen item with a posted non-blank answer, the session then has a response for the item holding the stripped answer |
| ViewsTake.SaveLeavesOthers | assessments/views_take.py:44-79 | blank or missing answers, items not in the payload and other sessions keep their responses; nothing is deleted |
| ViewsTake.SaveOneLeaves | assessments/views_take.py:46-48 | one item's save touches no other item, and a blank answer touches nothing |
| ViewsTake.SaveIgnoresOtherFields | assessments/views_take.py:44-79 | a posted field that names no frozen item changes neither the stored responses nor the count |
| ViewsTake.SaveItem | assessments/views_take.py:45-55 | one item: upsert when the stripped answer is non-blank; the result says whether it was saved |
| ViewsTake.SaveQuestions | assessments/views_take.py:44-60 | the question loop saves as the specification says and counts the saved answers |
| ViewsTake.SaveTasks | assessments/views_take.py:63-79 | the task loop continues the same save and count over the task items |
| ViewsTake.SavePosted | assessments/views_take.py:39-79 | both loops together: saved responses and `response_count` equal the specification over all frozen items |
| ViewsTake.Take | assessments/views_take.py:15-94 | unknown token or submitted session: nothing changes; otherwise the session is begun, then the poll returns the response count without saving, a POST saves as specified and reports saved and expected counts, or the page renders |
| ViewsTake.Submit | assessments/views_take.py:97-125 | submitted or answerless: nothing changes; otherwise the session is submitted and stamped before scoring, rows are rescored, and a report is stored exactly when none existed; success is shown exactly when a report was stored and its e-mail prepared, and otherwise a scoring failure is shown with the session submitted and any new report kept |
| JobModels.AcceptsCases | jobs/models.py:36-49 | inactive, past deadline, or at a positive cap refuses; no cap or a cap of 0 imposes nothing; acceptance is exactly active, not past the deadline, and under the cap |
| JobModels.AcceptsAntitone | jobs/models.py:39-48 | with a later time or more applications, a job accepts only if it accepted before |
| JobModels.ActiveAfterAll | jobs/models.py:37-48 | after a sequence of calls the job is active exactly when it started active and every call accepted |
| JobModels.ClosedStaysClosed | jobs/models.py:37-48 | once a call refuses, every later call refuses |
| JobModels.Job.constructor | jobs/models.py:27-29 | a new job is active with the given deadline and cap |
| JobModels.Job.IsAcceptingApplications | jobs/models.py:36-49 | the answer is the closing rule on the old state; afterwards `is_active` equals the answer; deadline and cap are unchanged |
| JobModels.Apply | jobs/models.py:57-75 | an application is added, status PENDING, exactly when the (student, job) pair has no application, and is otherwise refused |
| JobModels.ApplyKeepsUnique | jobs/models.py:75 | applying keeps the pairs unique, adds one to that job's count, leaves other jobs' counts alone, and a second application for the pair is refused |
| JobForms.CleanMaxApplications | jobs/forms.py:25-29 | no cap is accepted, a cap is accepted exactly when positive, and the value is returned unchanged |
| JobForms.CleanApplicationDeadline | jobs/forms.py:31-35 | no deadline is accepted, a deadline is accepted exactly when it is not earlier than now, and the value is returned unchanged |
| JobForms.DeadlineCheckMonotone | jobs/forms.py:31-35 | a deadline accepted later would also have been accepted earlier |
| JobForms.CleanInterviewMeaning | jobs/forms.py:37-46 | face-to-face without an address is the only refusal; a digital address is cleared; every other combination is returned unchanged; the type never changes; the result is consistent |
| JobForms.CleanInterviewIdempotent | jobs/forms.py:37-46 | cleaning cleaned data changes nothing |
| JobForms.JobForm.Clean | jobs/forms.py:37-46 | the method's result is the cleaning function on the bound data; `cleaned_data` is updated only on success |
| AccountForms.PhonePatternClosedForm | accounts/forms.py:15 | `^\+?1?\d{9,15}$` matches exactly an optional `+` followed by 9 to 16 digits, where 16 digits must start with `1` |
| AccountForms.ValidPhoneFitsField | accounts/forms.py:12-16 | a valid phone number fits `max_length=17` |
| AccountForms.PhoneExamples | accounts/forms.py:71-75 | `+999999999` and a `1` before fifteen digits are valid; too short, sixteen digits without a leading 1, or a letter are not |
| AccountForms.CleanStudentFirstFailure | accounts/forms.py:46-66 | a signup is accepted exactly when no guard fails; the reported error is the first failing guard in source order; accepted data is returned unchanged |
| AccountForms.CleanStudentAccepted | accounts/forms.py:53-64 | an accepted signup has no registered email, backs a university-email claim with an address of an accepted domain, and otherwise has a student ID |
| AccountForms.CleanStudentMonotone | accounts/forms.py:53-56 | registering more emails never turns a refusal into an acceptance |
| AccountForms.PersonalEmailCheckedFirst | accounts/forms.py:53-54 | a registered personal email is reported before any other problem |
| AccountForms.UniversityDomainExamples | accounts/forms.py:63 | `.edu` and Glasgow student addresses pass; so does any address merely containing the Glasgow domain |
| AccountForms.CleanEmployer | accounts/forms.py:82-87 | an employer signup is refused exactly when its email is non-empty and registered, and is otherwise returned unchanged |

## Left out

- E-mail transport and URL building (`send_mail`, `EmailMultiAlternatives`, `_absolute_url`, `reverse`, `render_to_string`). Only whether the invitation and the report e-mail's preparation succeed is modelled, as the inputs `inviteSent` and `mailPrepared`. The two `.send(fail_silently=True)` calls cannot raise and are not modelled.
- Token signing (`TimestampSigner.sign`). It is HMAC code in a library that is not part of this model. The token is an input, and uniqueness is the only assumption about it.
- The randomness itself. `random.shuffle` and `order_by("?")` are caller-supplied permutations.
- The ORM. Query sets are filters over sequences, in table order. `distinct()` becomes "no duplicate ids". `Question.skills` is a set of skill names.
- Messages, redirects, `JsonResponse`, template rendering and logging. Each view returns an outcome value instead. The authentication redirect at the end of `assessment_submit` (assessments/views_take.py:129-134) is plumbing of the same kind.
- Transactions and concurrency. The source uses no locks, so double-submit races are not modelled.
- Floating point and formatting. Scores are the integers 10 and 5. The summary is the pair (total, max) instead of the `.1f` text. The "No responses submitted." text on line 18 is overwritten before use, so only the final summary exists in the model.
- `get_object_or_404` raising `Http404` is the outcome `TakeNotFound` / `SubmitNotFound`.
- `MultipleObjectsReturned` from `update_or_create` cannot occur, because `Store.Valid` keeps one response per item.
- Negative rule counts. `rules.get("mcq")`, `"short"` and a section's `count` are natural numbers. A negative count would slice from the end in Python.
- Unicode. `lower()` folds only ASCII letters, and `\d` matches only ASCII digits. `strip()` removes the full set of characters Python's `str.isspace()` accepts.
- Python's `$` also matches before a trailing newline. This is not modelled, because the phone field's `CharField` strips whitespace before the validator runs.
- Field-level validation other than the phone pattern: e-mail syntax, file extensions, `max_length` and the password checks.
- The `__init__` toggles of `StudentSignUpForm` change field flags only.
- `Scoring.Score` writes rows that have no active question back unchanged, where the source skips saving them. The stored value is the same.
- The `Interview` model, `ApplicationForm`, `InterviewForm` and every request handler in `accounts/views.py`, `jobs/views.py` and `payment/views.py`. These are ORM, e-mail and Stripe calls with no rule of their own. This includes the `apply_job` profile checklist.
- `Text.Lower`: states only that the length is kept. Its meaning is exercised through the MCQ examples in `scoring.dfy`.
