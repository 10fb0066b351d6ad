# JobHelper core, modelled in Dafny

JobHelper is a résumé and quiz web application. It has an ASP.NET Core backend
(Entity Framework Core over a relational store) and a Next.js client. This
project models the parts of it that carry logic. Each part is stated as pure
functions over immutable values, and their contracts are proved:

- **Mappers** (`ResumeMapper`, `UserMapper`, `QuizMapper`). These are the
  structural copies between the persistence models (`Domain`) and the wire
  models (`Api`), entity by entity. Lists are projected element by element.
- **Store** (`Store`). The database is one immutable value holding the users,
  resumes and quizzes tables and the unique index on user email. `Valid`
  holds the constraints that `ApplicationDbContext.OnModelCreating`
  declares: the unique email, required columns, maximum lengths, resumes
  owned by existing users, resumes stored under their own id, and education
  and employment primary keys that no two rows share. Education and
  employment rows live inside their resume. A resume's children are
  therefore removed together with it, and the ghost views `EducationRows`
  and `EmploymentRows` list them as child rows.
- **Services** (`UserService`, `ResumeService`, `QuizService`). Each
  asynchronous service method is a transition from one store to a `Reply`.
  A `Reply` holds the method's result, or the error it throws, together
  with the store afterwards. `Guid.NewGuid()` becomes a `newId` argument.
  The keys Entity Framework generates for new education and employment rows
  come from a `KeySource` argument. A `SaveChanges` that the database would
  reject is a `StoreFailure` that leaves the store as it was. On create,
  every child is inserted, so that covers a resume id already taken, an
  education or employment key that another row already holds, and a value
  over its column's maximum length. On update, the
  change tracker inserts a child that arrives without a key, under a
  generated key that no other resume's child may hold. A child that arrives
  with a key is instead an UPDATE of the row with that key: the row moves to
  the updated resume from whichever resume held it (`Store.GiveUp`,
  `Store.TakeOver`). When no row has that key, the UPDATE matches nothing
  and the save fails.
- **Quiz page** (`QuizPage`): answer selection, the submit guard, the score,
  the one-second countdown, reset, and the `m:ss` time display.
- **Quiz statistics** (`QuizStats`): the rounded average, the best score, the
  colour tiers and the badges.
- **Cookie consent** (`CookieConsent`): the preference record, the
  accept/reject/save/toggle actions, and when the banner shows.
- **Create-resume form** (`CreateResumeForm`): field edits and the
  `toApiResume` projection onto the posted JSON body.

Supporting modules: `Wrappers` (`Option`, `Result`) and `Primitives` (`Guid`,
`Int32`, `Date`). `Text` has .NET's `ToLowerInvariant`, `Trim` and
`IsNullOrWhiteSpace`, and JavaScript's decimal rendering and `padStart`.
`Lists` has the element-wise projection and an ordered listing of a key set.

The round trip `toApi(toDomain(x)) == x` holds for every entity type except
`User`. The code's API user carries a quiz list that the domain user lacks,
so the round trip holds exactly when that list is empty
(`UserMapper.UserToDomainAndBack`). The model follows the code here.

## Model

| member | source | states |
|---|---|---|
| `ResumeMapper.ResumeToApi` | backend/Mappers/ResumeMapper.cs:5-17 | the id is kept and the personal details are their field-by-field copy. The education, employment, skill and language lists keep their length and order, and element i is the mapping of input element i. Education and employment ids survive, and hobbies are copied unchanged |
| `ResumeMapper.ResumeToDomain` | backend/Mappers/ResumeMapper.cs:19-31 | the same guarantees in the API-to-domain direction, personal details included |
| `ResumeMapper.PersonalDetailsToApi` | backend/Mappers/ResumeMapper.cs:33-53 | each of the 14 scalar fields equals the input field of the same name, and the custom fields keep their count and order, each one mapped |
| `ResumeMapper.PersonalDetailsToDomain` | backend/Mappers/ResumeMapper.cs:55-75 | each of the 14 scalar fields equals the input field of the same name, and the custom fields keep their count and order, each one mapped |
| `ResumeMapper.EducationToApi` | backend/Mappers/ResumeMapper.cs:77-89 | id, education name, school, city, start and end date and description are copied field by field |
| `ResumeMapper.EducationToDomain` | backend/Mappers/ResumeMapper.cs:91-103 | id, education name, school, city, start and end date and description are copied field by field |
| `ResumeMapper.EmploymentToApi` | backend/Mappers/ResumeMapper.cs:105-117 | id, job title, employer, city, start and end date and description are copied field by field |
| `ResumeMapper.EmploymentToDomain` | backend/Mappers/ResumeMapper.cs:119-131 | id, job title, employer, city, start and end date and description are copied field by field |
| `ResumeMapper.PersonalDetailsRoundTrip` | backend/Mappers/ResumeMapper.cs:33-75 | all 14 scalar fields and the custom fields come back unchanged in both directions |
| `ResumeMapper.EducationRoundTrip` | backend/Mappers/ResumeMapper.cs:77-103 | an education, its id included, comes back unchanged in both directions |
| `ResumeMapper.EmploymentRoundTrip` | backend/Mappers/ResumeMapper.cs:105-131 | an employment, its id included, comes back unchanged in both directions |
| `ResumeMapper.SkillRoundTrip` | backend/Mappers/ResumeMapper.cs:133-149 | the nested level keeps its value and description, and a skill comes back unchanged in both directions |
| `ResumeMapper.LanguageRoundTrip` | backend/Mappers/ResumeMapper.cs:151-167 | the nested level keeps its value and description, and a language comes back unchanged in both directions |
| `ResumeMapper.LevelRoundTrip` | backend/Mappers/ResumeMapper.cs:169-185 | value and description are kept, and a level comes back unchanged in both directions |
| `ResumeMapper.CustomFieldRoundTrip` | backend/Mappers/ResumeMapper.cs:187-203 | label and value are kept, and a custom field comes back unchanged in both directions |
| `ResumeMapper.ResumeToApiAndBack` | backend/Mappers/ResumeMapper.cs:5-31 | every domain resume survives the trip to the API model and back |
| `ResumeMapper.ResumeToDomainAndBack` | backend/Mappers/ResumeMapper.cs:5-31 | every API resume survives the trip to the domain model and back |
| `ResumeMapper.ResumeToApiInjective` | backend/Mappers/ResumeMapper.cs:5-17 | two different resumes never map to the same API resume |
| `UserMapper.UserToApi` | backend/Mappers/UserMapper.cs:5-13 | id and email are copied, resumes are mapped element-wise, and the quiz list is always empty because it is never set |
| `UserMapper.UserToDomain` | backend/Mappers/UserMapper.cs:15-23 | id and email are copied, and resumes are mapped element-wise with length and order kept |
| `UserMapper.UserToApiAndBack` | backend/Mappers/UserMapper.cs:5-23 | every domain user survives the trip to the API model and back |
| `UserMapper.UserToDomainAndBack` | backend/Mappers/UserMapper.cs:15-23 | an API user survives the trip to the domain model and back exactly when its quiz list is empty |
| `QuizMapper.QuizRoundTrip` | backend/Mappers/QuizMapper.cs:5-21 | quiz id and score are kept, and each conversion undoes the other |
| `Store.EmailsUnique` | backend/Data/ApplicationDbContext.cs:34 | in a valid store no two users share an email |
| `Store.StoredChildRowsFit` | backend/Data/ApplicationDbContext.cs:100-114 | in a valid store, every education has a name and school of at most 255 characters, and every employment has a job title and employer of at most 255. In both, a city has at most 100 characters and a description at most 2000 |
| `Store.AddUser` | backend/Data/ApplicationDbContext.cs:33-35 | inserting a user under a fresh id and an unused email of at most 255 characters keeps every constraint, indexes the email, and touches no resume or quiz |
| `Store.CascadeDeleteUser` | backend/Data/ApplicationDbContext.cs:38-41 | deleting a user removes that user and every resume it owns. Other resumes and all quizzes stay as they were, and the constraints still hold |
| `Store.EducationKeysUnique` | backend/Data/ApplicationDbContext.cs:96-99 | in a valid store two education rows with the same key are the same row of the same resume |
| `Store.EmploymentKeysUnique` | backend/Data/ApplicationDbContext.cs:107-110 | in a valid store two employment rows with the same key are the same row of the same resume |
| `Store.PutKeepsChildKeys` | backend/Data/ApplicationDbContext.cs:96-110 | writing a resume whose child keys are distinct and held by no other resume keeps all child keys unique |
| `Store.GiveUp` | backend/Data/ApplicationDbContext.cs:96-110 | a resume whose child rows another resume takes over keeps exactly the children whose keys the taker does not hold; nothing else about it changes |
| `Store.TakeOverKeepsChildKeys` | backend/Data/ApplicationDbContext.cs:96-110 | writing a resume with distinct child keys, while every other resume gives up the keys it holds, keeps all child keys unique |
| `Store.WriteTakingOver` | backend/Data/ApplicationDbContext.cs:96-110 | such a write keeps every constraint, stores the row at its id, leaves the set of resume ids, the users and the quizzes as they were, and makes every other resume give up the taken keys |
| `Text.Trim` | backend/Services/UserService.cs:39 | the result is a slice of the text with only white space cut before and after it. Nothing is left exactly when the text is all white space, and what is left neither starts nor ends with white space |
| `Text.ToLowerTrim` | backend/Services/UserService.cs:39 | lower-casing and trimming commute |
| `UserService.Normalize` | backend/Services/UserService.cs:39 | the normal form is a slice of the lower-cased email with only white space cut before and after it. It holds no capital letter, neither starts nor ends with white space, is empty exactly when the email is blank, and is never longer than the email |
| `UserService.NormalizeIdempotent` | backend/Services/UserService.cs:71 | normalising twice is normalising once |
| `UserService.FindUserId` | backend/Services/UserService.cs:59-72 | a blank or null email finds nobody. A found id is a user whose stored email is the normal form, and when nothing is found no user has that email |
| `UserService.GetUserByEmail` | backend/Services/UserService.cs:59-72 | a blank or null email gives none. Otherwise a user comes back exactly when some user holds the normalised email, and it carries that email |
| `UserService.GetUserById` | backend/Services/UserService.cs:75-83 | the user comes back exactly when the id is in the store, with its stored email and its resumes |
| `UserService.CreateUser` | backend/Services/UserService.cs:22-56 | a blank email fails with an argument error and an existing email fails with "already exists", leaving the store unchanged. Success means a new user with the fresh id, the non-empty normalised email and no resumes, with nothing else changed |
| `UserService.CreatedUserIsFound` | backend/Services/UserService.cs:36-45 | after a create, any email with the same normal form finds the new user |
| `UserService.GetOrCreateUser` | backend/Services/UserService.cs:86-98 | an existing user is returned with the store unchanged; otherwise the call is a create. The user count grows by at most one |
| `UserService.GetOrCreateTwice` | backend/Services/UserService.cs:86-98 | a second call with the same email returns the same user and changes nothing, and across both calls at most one user is added |
| `ResumeService.GetResumesByUserId` | backend/Services/ResumeService.cs:22-40 | the list holds exactly the resumes the user owns, each once, with their education and employment |
| `ResumeService.GetResumeById` | backend/Services/ResumeService.cs:43-68 | the resume comes back exactly when its id is stored; absence gives none, not an error |
| `ResumeService.CreateResume` | backend/Services/ResumeService.cs:71-97 | a missing user fails and nothing is stored. Success comes exactly when the user exists, the fresh id is unused, the columns fit and the child keys are distinct and held by no other resume. The resume is then stored under the fresh id whatever id it carried, its keyless children keyed, owned by the user, with users and quizzes unchanged and the constraints kept |
| `ResumeService.CreateRejectsTakenEducationKey` | backend/Services/ResumeService.cs:86-87 | an education carrying another resume's education key makes the create fail and leaves the store unchanged |
| `ResumeService.CreatedResumeIsFound` | backend/Services/ResumeService.cs:83-90 | a created resume is found by id and is listed among its owner's resumes |
| `ResumeService.CreatedResumeCountGrows` | backend/Services/ResumeService.cs:83-90 | creating a resume adds exactly one to the owner's list |
| `ResumeService.Replace` | backend/Services/ResumeService.cs:114-138 | the updated resume fits its columns exactly when the incoming one does |
| `ResumeService.UpdateResume` | backend/Services/ResumeService.cs:100-150 | a missing resume fails with the store unchanged, and so does any failure. Success comes exactly when the resume exists, the columns fit, no child key is attached twice, no other resume holds a keyless child's generated key, and some resume holds the key of every keyed child. The personal details, skills, languages and hobbies then equal the incoming values, and the educations and employment equal the incoming ones with keyless rows keyed, while the id and owner stay. Every other resume gives up the children whose keys the update brought and keeps the rest. Users and quizzes do not change, and the constraints are kept |
| `ResumeService.UpdateReplacesEducations` | backend/Services/ResumeService.cs:126-138 | after an update the resume's education and employment rows are exactly the incoming ones, keyed, not a merge |
| `ResumeService.UpdateTakesOverEmployment` | backend/Services/ResumeService.cs:133-140 | an update bringing one fitting employment that carries the key of a row another resume holds is accepted, not refused |
| `ResumeService.UpdateMovesEmploymentRow` | backend/Services/ResumeService.cs:133-140 | after an accepted update bringing one keyed employment, any other resume no longer holds that key and keeps every row keyed otherwise |
| `ResumeService.UpdateKeepsKeyedEmployment` | backend/Services/ResumeService.cs:133-138 | after an accepted update whose employment rows all carry keys, the resume's employment is exactly the incoming list |
| `ResumeService.UpdateRejectsUnknownEmploymentKey` | backend/Services/ResumeService.cs:133-149 | an employment carrying a key that no resume holds makes the update fail, as the save's concurrency failure is rethrown, and leaves the store unchanged |
| `ResumeService.UpdateLeavesUnrelatedResumes` | backend/Services/ResumeService.cs:126-140 | after an accepted update, a resume that holds none of the incoming children's keys is unchanged |
| `ResumeService.DeleteResume` | backend/Services/ResumeService.cs:153-175 | the result tells whether the resume existed. Only that resume is removed, and nothing changes when it is absent |
| `ResumeService.DeleteResumeCascades` | backend/Data/ApplicationDbContext.cs:64-74 | deleting a resume removes exactly its education and employment rows |
| `QuizService.GetQuizzesByUserId` | backend/Services/QuizService.cs:22-38 | the list holds exactly the quizzes the user owns, each once |
| `QuizService.CreateQuiz` | backend/Services/QuizService.cs:41-68 | a missing user fails and nothing is stored. Success means a quiz under the fresh id whatever id it carried, owned by the user, with the submitted score, and nothing else changed |
| `QuizService.CreateQuizFrames` | backend/Services/QuizService.cs:53-57 | every other quiz is left where it was |
| `QuizService.CreatedQuizIsListed` | backend/Services/QuizService.cs:53-57 | a created quiz, with its score, is listed among its owner's quizzes |
| `QuizPage.CalculateScore` | client/app/quiz/page.tsx:168-176 | total is the number of questions, and correct counts the questions whose recorded answer is the correct index, so it lies between 0 and total |
| `QuizPage.CountIsCorrectPositions` | client/app/quiz/page.tsx:170-173 | the count equals the number of positions answered correctly |
| `QuizPage.AllCorrectIffFullScore` | client/app/quiz/page.tsx:170-175 | the score is at most the total, and equals it exactly when every question is answered correctly |
| `QuizPage.FormatTime` | client/app/quiz/page.tsx:60-64 | the display has a colon three characters from the end and two second digits worth less than 60, minutes times 60 plus seconds gives back the input, and the minutes have no leading zero |
| `QuizPage.AnswerSelect` | client/app/quiz/page.tsx:111-118 | once results show, nothing changes. Otherwise only that question's answer is set, and every other answer and field stays |
| `QuizPage.SubmitQuiz` | client/app/quiz/page.tsx:153-166 | with an answer missing and time left, only the error message changes. Otherwise the timer stops, results show and the error clears. A save of the correct count is requested exactly when the user id and quiz id are non-empty |
| `QuizPage.Tick` | client/app/quiz/page.tsx:41-58 | a tick only runs while the timer is active and results are hidden. It decrements by one, or stops at 0 and deactivates when at most one second is left, and it never makes the time negative |
| `QuizPage.CountdownReachesZero` | client/app/quiz/page.tsx:45-54 | k ticks from t seconds leave max(t - k, 0) seconds, and the timer stays active exactly while k < t |
| `QuizPage.ExpiredQuizCanBeSubmitted` | client/app/quiz/page.tsx:154 | once the countdown has run out, a submission is accepted whatever is unanswered |
| `QuizPage.AnswersFrozenAfterSubmit` | client/app/quiz/page.tsx:112 | after an accepted submission, selecting an answer changes nothing |
| `QuizPage.Reset` | client/app/quiz/page.tsx:178-187 | the quiz and answers are emptied, the theme and error cleared, and the time set back to 600. Results are hidden and the timer stopped |
| `QuizPage.ResetIsInitial` | client/app/quiz/page.tsx:15-25 | after a reset the page state equals that of a freshly loaded page |
| `QuizStats.Average` | client/components/QuizStats/QuizStats.tsx:11-15 | 0 for no quizzes. Otherwise the integer r with 2n·r − n ≤ 2·sum < 2n·r + n: the mean rounded to nearest, with halves rounded up |
| `QuizStats.AverageIsUnique` | client/components/QuizStats/QuizStats.tsx:14 | no other integer is within half a unit of the mean in that sense, so the average is determined |
| `QuizStats.Highest` | client/components/QuizStats/QuizStats.tsx:17-20 | 0 for no quizzes. Otherwise one of the scores, and at least every score |
| `QuizStats.TierOf` | client/components/QuizStats/QuizStats.tsx:22-32 | green at 8 and above, yellow for 6 and 7, red below 6 |
| `QuizStats.ColoursFollowTier` | client/components/QuizStats/QuizStats.tsx:22-32 | two scores get the same text colour exactly when they get the same background, exactly when they share a tier |
| `QuizStats.BadgesOf` | client/components/QuizStats/QuizStats.tsx:120-125 | the trophy shows exactly for a green score and the star exactly for a yellow one, never both |
| `QuizStats.Rows` | client/components/QuizStats/QuizStats.tsx:100-128 | one row per quiz in order. Row i of n is labelled n − i, shows the short form of its own quiz id, and is coloured and badged by its own score |
| `QuizStats.LabelsCountDown` | client/components/QuizStats/QuizStats.tsx:107 | the labels run from n down to 1, strictly decreasing |
| `QuizStats.ShortId` | client/components/QuizStats/QuizStats.tsx:111 | the first eight characters of the id, or all of a shorter id, followed by "..." |
| `CookieConsent.Initial` | client/components/CookieConsent/CookieConsent.tsx:15-24 | the banner shows exactly when no consent is stored. A stored record becomes the preferences; otherwise only the necessary cookies are on |
| `CookieConsent.Toggle` | client/components/CookieConsent/CookieConsent.tsx:59-65 | toggling `necessary` does nothing. Any other key flips, and the other keys stay |
| `CookieConsent.ToggleTwice` | client/components/CookieConsent/CookieConsent.tsx:61-64 | toggling the same key twice restores the preferences |
| `CookieConsent.TogglesCommute` | client/components/CookieConsent/CookieConsent.tsx:61-64 | toggles of two keys can be applied in either order |
| `CookieConsent.Step` | client/components/CookieConsent/CookieConsent.tsx:26-57 | accept-all sets all four flags, and reject-all keeps only `necessary`. Each stores the same record and hides the banner. Save stores the current preferences unchanged and hides the banner and the dialog |
| `CookieConsent.NecessaryAlwaysOn` | client/components/CookieConsent/CookieConsent.tsx:8-13 | starting from no stored consent, or a stored one with `necessary` on, no sequence of actions turns it off, in the state or in storage |
| `CookieConsent.ChoiceSurvivesReload` | client/components/CookieConsent/CookieConsent.tsx:15-24 | after accepting, rejecting or saving, a reload shows no banner and restores the same preferences |
| `CreateResumeForm.InitialForm` | client/app/dashboard/create-resume/page.tsx:35-63 | every text field starts as "" and every list field as an empty list |
| `CreateResumeForm.HandleChange` | client/app/dashboard/create-resume/page.tsx:159-162 | the named field now holds the typed text, and every other field stays |
| `CreateResumeForm.ToApiResume` | client/app/dashboard/create-resume/page.tsx:67-105 | name comes from fullName, emailAddress from email, phoneNumber from phone, address from address, website from portfolio and linkedIn from linkedin, and school comes from school. The eight other personal details are always "". There is exactly one education built from the education fields, and every other list is empty |
| `CreateResumeForm.UnreadFieldIsDropped` | client/app/dashboard/create-resume/page.tsx:67-105 | editing a field the projection does not read, such as website or desired job position, leaves the posted resume unchanged |
| `CreateResumeForm.PostedIsField` | client/app/dashboard/create-resume/page.tsx:67-105 | for each of the 14 fields the projection reads, the value at its place in the posted resume is that field's text |
| `CreateResumeForm.ReadFieldIsPosted` | client/app/dashboard/create-resume/page.tsx:67-105 | editing a field the projection reads puts the typed text at that field's place in the posted resume |
| `CreateResumeForm.EditKeepsOtherPosted` | client/app/dashboard/create-resume/page.tsx:67-105 | editing one field leaves the posted value of every other read field as it was |
| `CreateResumeForm.SchoolIsAlwaysEmpty` | client/app/dashboard/create-resume/page.tsx:116-157 | no input is bound to `school`, so after any edits the posted school is "", in both the personal details and the education |

## Left out

- HTTP, authentication and hosting (controllers, CORS, OAuth, cookies, `fetch`, `localStorage` I/O) are not modelled. The client's network calls become their inputs and outputs: the quiz save request, and the stored consent record.
- The AI quiz and CV services, PDF export and all rendering markup are left out. `handleGenerateQuiz` is a network call; its blank-theme guard uses JavaScript's `trim` and is not modelled.
- Timers and React effects are left out. `Tick` is one interval callback. The auto-submit inside the interval runs a stale copy of `handleSubmitQuiz` and is not modelled.
- The race between the existence check and the insert in `CreateUserAsync` is left out. The services are modelled one call at a time; the unique index makes such a race fail the save.
- Entity Framework change tracking, transactions and logging are left out. A rejected `SaveChanges` is one `StoreFailure` outcome.
- Key generation for new education and employment rows is an oracle: a `KeySource` gives the key for a row whose id is the empty Guid. The model does not promise that the generated keys are fresh; a generated key that collides is refused like any other.
- ResumeService.UpdateResume: an incoming child that reuses the key of one of the resume's own removed children is treated as an update of that row. The change tracker may instead raise an identity conflict there, which is not modelled.
- ResumeService.CreateResume: a key used twice in the incoming lists is a `StoreFailure`. `Add` raises an identity conflict there before any save, an `InvalidOperationException` that `CreateResumeAsync` does not wrap, so its message differs.
- ResumeService.UpdateResume: a key attached twice in the incoming lists is a `StoreFailure`. The change tracker raises an identity conflict there, an `InvalidOperationException` that `UpdateResumeAsync` does not wrap, so its message differs.
- Query results have no `OrderBy`, so their order is up to the database. The model lists rows by ascending id, and contracts speak only of membership and count.
- Quizzes are not cascaded when a user is deleted. The schema configures no quiz relationship. `DeleteUserAsync` is declared but not implemented, so only the schema's cascade rule `Store.CascadeDeleteUser` is modelled.
- Floating point is left out: the quiz page's percentage display, which also divides by zero for an empty quiz.
- `QuizStats.Average` rounds the exact quotient. The client divides in binary floating point first, which this model does not reproduce.
- `Text.ToLower` only lower-cases A–Z and the Latin-1 capitals. Other scripts' case mappings under `ToLowerInvariant` are not modelled.
- `Text.IsWhiteSpace` works on Unicode scalar values, while .NET strings are UTF-16. Lengths checked against a column's maximum length are therefore counts of scalars, not UTF-16 units. This applies to the 255-character email limit and to the 255, 100 and 2000 limits that `ResumeFits`, `EducationFits` and `EmploymentFits` check for `ResumeService.CreateResume` and `ResumeService.UpdateResume`.
- Columns marked required are strings that cannot be null, by type. A null sent by a client, rejected by the database, is not modelled.
- The `gdpr-consent-date` timestamp written next to the consent record is a clock read and is left out.
- `CookieConsent.Initial` assumes the stored record is a well-formed preference object, as this component writes it. Parsing arbitrary stored text is not modelled.
