# Skills assessment platform: a verified model of its core

This project models the core of a skills assessment web application. The application has an
Express/MySQL back end and a React front end. Each modelled source file becomes one Dafny module:

- `AdminUsers`, `AdminAssessments`, `AdminSettings`, `AdminSubscribers` and `UploadPath` cover the
  administrator routes:
  - the partial user update and its skill-link replacement;
  - the `GROUP_CONCAT` skill list;
  - the assessment list's pass rate and question replacement;
  - user deletion, settings upsert, adding a subscriber, and the stored image path.
- `SkillListing` and `Recommendations` cover the skill routes:
  - `parseInt` paging defaults;
  - the `WHERE` builder and its placeholders;
  - `hasMore`;
  - the recommendation filter and its ordering.
- `ProfileRoutes` covers the profile routes: the authentication check, e-mail validation, the
  partial update, find-or-create skill linking and rollback.
- `BlogRoutes` covers the search guard and the newsletter subscription state machine.
- `AdminGate` covers the `isAdmin` middleware's decision chain.
- `Leaderboard` covers the overall board, the per-assessment boards and the personal ranking.
- `EditProfile`, `Dashboard`, `BlogLanding`, `ProfilePicture`, `SkillCard` and `QuestionScreen`
  cover the front end:
  - form initialisation and the skill add/remove handlers;
  - the dashboard filter, colour bands and greeting;
  - profile-picture URLs;
  - camel-case card titles;
  - the question-navigation state.

Shared modules:

- `Common`: statuses, `Option`, JavaScript truthiness.
- `Text`: ECMAScript white space, `trim`, `includes`, `toLowerCase` on ASCII, `split`/`join`.
- `EmailPattern`: the regular expression `^[^\s@]+@[^\s@]+\.[^\s@]+$`.
- `Tables`: the database tables as a `Database` class whose fields the routes update.
- `UserUpdate`: the `UPDATE ... SET` builder shared by both update routes.
- `SkillLinks`: the find-or-create loop shared by both update routes.
- `Sorting`: a stable insertion sort and `LIMIT`/`OFFSET` windows.

## How routes are modelled

- Route handlers that change tables are methods over `Database` with `modifies` clauses.
- Transactions run on working copies and commit by assigning the fields.
- A `dbError` input stands for a statement failing before the commit. The route then answers
  500 and the rows are left as they were. AUTO_INCREMENT counters are only promised not to move
  back, since InnoDB does not return ids used by rolled-back inserts.
- The two admin update routes read their result back after the commit. A `readError` input
  stands for that read failing. The route then answers 500 with the update already committed.
  The assessment update does the same when `JSON.parse` (the `parses` parameter) refuses a
  stored options text.
- Pure expressions, such as filters, URL building, pass rates and rankings, are functions with
  lemmas.
- The question screen is a class with `current` and `selected` fields.

## Model

| member | source | states |
|---|---|---|
| AdminGate.IsAdmin | skills-assess-backend/middleware/admin.js:4-29 | 401 without a user or id before any lookup; 500 when the lookup fails; 404 for an unknown id; 403 for a falsy `is_admin`; next() exactly for a found user whose `is_admin` is non-zero |
| AdminGate.UnauthorizedBeforeLookup | skills-assess-backend/middleware/admin.js:7-9 | without a user id the answer does not depend on the table or on the lookup failing |
| AdminGate.OnlyCallerRowMatters | skills-assess-backend/middleware/admin.js:12-21 | the decision depends only on the caller's own row |
| UserUpdate.BuildTextUpdate | skills-assess-backend/routes/ProfileRoutes.js:83-97 | the pushes are the name/email/bio assignments of truthy fields in that order; applying them replaces exactly those columns |
| UserUpdate.TextPushesEmpty | skills-assess-backend/routes/ProfileRoutes.js:99-104 | nothing is pushed, so no UPDATE runs, exactly when none of name, e-mail, bio is truthy |
| UserUpdate.UpdatePlaceholders | skills-assess-backend/routes/ProfileRoutes.js:100-103 | the joined `UPDATE ... SET ... WHERE id = ?` has exactly as many `?` as bound values, the id last |
| AdminUsers.BuildUserUpdate | skills-assess-backend/routes/adminRoutes.js:239-266 | columns go name, email, bio, is_admin, password, each at most once; is_admin stored 1/0 whenever sent; the password hashed; the list is empty exactly when nothing was given; applying it gives `AdminEdit` |
| AdminUsers.AdminPushesEmpty | skills-assess-backend/routes/adminRoutes.js:268-275 | no UPDATE exactly when no truthy name/email/bio/password and no is_admin |
| AdminUsers.AdminEdit | skills-assess-backend/routes/adminRoutes.js:242-266 | a truthy password is stored hashed; with nothing sent the row is unchanged; the picture is never touched |
| AdminUsers.SkillsFromConcat | skills-assess-backend/routes/adminRoutes.js:146 | a null or empty concatenation gives `[]`; otherwise pieces free of commas |
| AdminUsers.ConcatRoundTrip | skills-assess-backend/routes/adminRoutes.js:135-146 | splitting the `GROUP_CONCAT` of comma-free names returns the names, except the single empty name |
| AdminUsers.AdminViewOf | skills-assess-backend/routes/adminRoutes.js:144-148 | `is_admin` becomes a boolean true exactly for non-zero; skills come from the concatenation |
| AdminUsers.UpdateUser | skills-assess-backend/routes/adminRoutes.js:221-338 | 404 for an unknown id; 500 for a failure before the commit, with the rows unchanged; otherwise the update is committed: the row is `AdminEdit` of the old row and a skills array replaces the links one per name; 200 exactly when the read-back after the commit succeeds, answering with the names sent; a failed read-back answers 500 with the update kept |
| AdminUsers.ReplyListsSentSkills | skills-assess-backend/routes/adminRoutes.js:313-321 | when the links name the sent list, the answer's skills are that list |
| AdminUsers.DeleteUser | skills-assess-backend/routes/adminRoutes.js:341-365 | 404 for an unknown id before the self-delete check; 400 for the caller's own id; only otherwise the row is removed; other tables untouched |
| SkillLinks.ReplaceSkillLinks | skills-assess-backend/routes/adminRoutes.js:278-308 | the user's links become one per listed name in list order, each naming that skill; existing skills are reused; missing ones are created; other users' links unchanged |
| Tables.FindByNameSpec | skills-assess-backend/routes/ProfileRoutes.js:117-131 | the lookup by name finds nothing exactly when no row has the name, else the first such row's id |
| Tables.FindThenName | skills-assess-backend/routes/ProfileRoutes.js:155-164 | in a valid catalogue the id found by name joins back to that name |
| Tables.LinkedNamesResolved | skills-assess-backend/routes/ProfileRoutes.js:155-164 | when every linked id resolves to its listed name, the join gives the list |
| AdminAssessments.Average | skills-assess-backend/routes/adminRoutes.js:378 | `AVG` is NULL exactly for no attempts |
| AdminAssessments.PassRateAllOrNothing | skills-assess-backend/routes/adminRoutes.js:388-389 | the list's pass rate is always 0 or 100, and 100 exactly when some attempt exists and the average is at least 70 |
| AdminAssessments.AverageAtLeast | skills-assess-backend/routes/adminRoutes.js:389 | the average is at least 70 exactly when the sum is at least 70 per attempt |
| AdminAssessments.RoundedPercentBounds | skills-assess-backend/routes/adminRoutes.js:388-389 | a rounded share is between 0 and 100, 0 for none and 100 for all |
| AdminAssessments.PassRateCounterexample | skills-assess-backend/routes/adminRoutes.js:388-389 | scores 100 and 40 get pass rate 100 although one attempt in two passed (50) |
| AdminAssessments.PassRatePercentBounds | skills-assess-backend/routes/adminRoutes.js:808 | the share of passing attempts is a percentage: 0 when none passes, 100 when all do |
| AdminAssessments.KindOf | skills-assess-backend/routes/adminRoutes.js:560 | a missing or empty type becomes 'multiple-choice' |
| AdminAssessments.InsertedRows | skills-assess-backend/routes/adminRoutes.js:547-563 | each inserted question carries its input's text and answer (NULL when missing), its options encoded from an array, kept as text or NULL when missing, and consecutive ids |
| AdminAssessments.WithoutAssessmentSpec | skills-assess-backend/routes/adminRoutes.js:544 | the delete leaves no question of the assessment and keeps every other assessment's questions |
| AdminAssessments.ReplacedQuestions | skills-assess-backend/routes/adminRoutes.js:542-564 | after the replacement the assessment's questions are exactly the inserted ones, and other assessments keep theirs |
| AdminAssessments.ReplaceQuestions | skills-assess-backend/routes/adminRoutes.js:544-563 | the new table is the old one without the assessment's questions followed by the inserted rows; ids stay below the counter |
| AdminAssessments.UpdateAssessment | skills-assess-backend/routes/adminRoutes.js:518-600 | 404 for an unknown id; 500 for a failure before the commit, with the rows unchanged; otherwise the commit always overwrites the six basic fields, NULL for absent ones, and replaces the questions only for a non-empty array; 200 exactly when the read-back succeeds and every non-NULL options text of the assessment parses, else 500 with the update kept |
| AdminAssessments.CommitAssessment | skills-assess-backend/routes/adminRoutes.js:534-566 | the transaction overwrites the six basic columns and replaces the questions exactly for a non-empty array, leaving every other table as it was |
| AdminAssessments.UnparsableOptionsStored | skills-assess-backend/routes/adminRoutes.js:549-551 | a question sent with options text that is not JSON is stored as it is, so the committed assessment holds a text `JSON.parse` refuses |
| AdminAssessments.ListedOptionsParse | skills-assess-backend/routes/adminRoutes.js:549-582 | when no new question sends its options as text (an array or nothing) and `JSON.parse` reads back what `JSON.stringify` writes, all the replaced questions pass the read-back, NULL options unparsed |
| UploadPath.UploadsMatchSpec | skills-assess-backend/routes/adminRoutes.js:686 | `^.*\/uploads` matches up to the last `/uploads` on the first line, and fails exactly when there is none |
| UploadPath.NoBackslash | skills-assess-backend/routes/adminRoutes.js:685-687 | the stored path holds no backslash |
| UploadPath.NormalizeIdempotent | skills-assess-backend/routes/adminRoutes.js:685-687 | normalising a stored path again changes nothing |
| AdminSettings.UpsertedLast | skills-assess-backend/routes/adminRoutes.js:978-984 | every supplied key ends holding the value of its last entry |
| AdminSettings.UpsertedUntouched | skills-assess-backend/routes/adminRoutes.js:978-984 | keys absent from the body keep their value, and no key is added |
| AdminSettings.UpsertAll | skills-assess-backend/routes/adminRoutes.js:978-984 | the loop's result is the upsert of every entry in body order |
| AdminSettings.UpdateSettings | skills-assess-backend/routes/adminRoutes.js:968-999 | 200 exactly without error, with the upserted settings; on error 500 and nothing written |
| AdminSubscribers.AddSubscriberStep | skills-assess-backend/routes/adminRoutes.js:899-907 | 400 exactly for an address already present, with the table unchanged; otherwise 201 and one row added |
| AdminSubscribers.AdminAddDiffersFromSubscribe | skills-assess-backend/routes/adminRoutes.js:899-903 | for an unsubscribed address the admin route refuses while the public route reactivates |
| AdminSubscribers.AddSubscriber | skills-assess-backend/routes/adminRoutes.js:894-912 | the table changes as `AddSubscriberStep` says, and not at all on error |
| EmailPattern.ValidEmailMatchesPattern | skills-assess-backend/routes/blog.js:98 | the regular expression accepts exactly the texts with one `@`, no white space, a non-empty local part and a `.` after the `@` with a character on each side |
| EmailPattern.EmailAcceptedOnInput | skills-assess-backend/routes/blog.js:98-99 | a missing e-mail reaches the regular expression as the text "undefined" and is rejected |
| BlogRoutes.SearchStatus | skills-assess-backend/routes/blog.js:46-70 | 400 exactly for a missing or empty query |
| BlogRoutes.SubscribeOutcomes | skills-assess-backend/routes/blog.js:93-137 | 400 for an invalid address; 201 with one inserted row for a new one; 200 with status 'active' and a fresh time for an unsubscribed one; 409 otherwise; only that address's row changes |
| BlogRoutes.SubscribeTwice | skills-assess-backend/routes/blog.js:119-137 | a second subscription right after a successful one answers 409 and changes nothing |
| BlogRoutes.Subscribe | skills-assess-backend/routes/blog.js:93-142 | the table changes as `SubscribeStep` says; on error 500 with the table as it was |
| ProfileRoutes.GetProfile | skills-assess-backend/routes/ProfileRoutes.js:17-54 | 401 without a user id; 404 for no row; otherwise the profile with its linked skill names |
| ProfileRoutes.ViewOf | skills-assess-backend/routes/ProfileRoutes.js:26-47 | no view exactly when no row; the view's skills are the joined names of the user's links |
| ProfileRoutes.UpdateProfile | skills-assess-backend/routes/ProfileRoutes.js:57-179 | 401 before anything; 400 for a truthy invalid e-mail before any write; a missing user or any error rolls every row back, while the skill counter keeps the ids the inserts used; with no error and an existing user the route answers 200; success applies `TextEdit`, replaces links, and answers with the linked names |
| SkillListing.OrDefault | skills-assess-backend/routes/skills.js:17-18 | `parseInt(x) \|\| d`: NaN and 0 give the default, any other value passes |
| SkillListing.ParseIntText | skills-assess-backend/routes/skills.js:17 | `parseInt` of leading white space, a decimal integer and a non-digit rest is that integer |
| SkillListing.PageAndLimit | skills-assess-backend/routes/skills.js:17-18 | page is 1 and limit 6 when missing or 0; any other number, negatives included, passes |
| SkillListing.OffsetSign | skills-assess-backend/routes/skills.js:19 | `(page - 1) * limit` is non-negative exactly for page at least 1, and the window ends at page times limit |
| SkillListing.FilterPlaceholders | skills-assess-backend/routes/skills.js:38-50 | the AND-joined conditions have exactly as many placeholders as filter parameters (their order is stated by `ConditionsShape` and `ParamsShape`) |
| SkillListing.ConditionsShape | skills-assess-backend/routes/skills.js:39-46 | category adds its condition unless missing, empty or 'All'; search adds the LIKE pair; category first |
| SkillListing.BuildQueries | skills-assess-backend/routes/skills.js:35-69 | list parameters are the filter parameters then limit and offset; the count query gets the filter parameters alone; each query has as many placeholders as parameters |
| SkillListing.DropLastTwo | skills-assess-backend/routes/skills.js:69 | `slice(0, -2)` removes exactly the pushed limit and offset |
| SkillListing.HasMoreMeansRowsRemain | skills-assess-backend/routes/skills.js:72-73 | `offset + returned < total` holds exactly when rows remain past the window |
| SkillListing.PaginateSpec | skills-assess-backend/routes/skills.js:67-80 | 200 exactly without error and for page and limit at least 1; the page is the window of the matching rows; total counts them all |
| Recommendations.UserCategoriesSpec | skills-assess-backend/routes/skills.js:140 | the distinct categories of the history, in first-occurrence order, with no repeats; empty exactly for no history |
| Recommendations.DistinctOrder | skills-assess-backend/routes/skills.js:140 | a `Set` keeps first-occurrence order |
| Recommendations.LowScoreMembers | skills-assess-backend/routes/skills.js:143-145 | an id is listed exactly when some attempt of it scored below 70; 70 itself is not low |
| Recommendations.LowScoreOrder | skills-assess-backend/routes/skills.js:143-145 | filtering keeps history order |
| Recommendations.MatchingMembers | skills-assess-backend/routes/skills.js:159-173 | a candidate matches exactly when it was never attempted by the user and its category is among the user's or its difficulty is the picked one |
| Recommendations.OrderIsTotal | skills-assess-backend/routes/skills.js:175-181 | the ORDER BY is a total preorder |
| Recommendations.RankedSpec | skills-assess-backend/routes/skills.js:148-183 | the ranked rows are sorted and are exactly the matching rows (equal multisets); every row of a page is an unattempted skill in a user category or of the picked difficulty, with the popularity and average of its own attempts |
| Recommendations.RankedOrder | skills-assess-backend/routes/skills.js:174-181 | the ranking is the ORDER BY order of exactly the matching rows |
| Recommendations.EligibleRanked | skills-assess-backend/routes/skills.js:159-173 | every unattempted skill in one of the user's categories or of the picked difficulty is ranked |
| Recommendations.CategoryMatchesFirst | skills-assess-backend/routes/skills.js:175-181 | category-in-list rows come first, then popularity descending, then average ascending with NULL first |
| Recommendations.RecommendSpec | skills-assess-backend/routes/skills.js:120-225 | the route as written answers 200 only with some low score; then the page of ranked rows |
| Recommendations.RecommendEmptyListFails | skills-assess-backend/routes/skills.js:169 | a user whose only attempt passed gets 500 |
| Recommendations.RecommendFixedSpec | skills-assess-backend/routes/skills.js:120-225 | with an empty id list matching nothing, 200 exactly without error and for page and limit at least 1; the same answer as written wherever that succeeds |
| Leaderboard.Avatar | skills-assess-backend/controllers/leaderboardController.js:25 | a missing or empty picture becomes '/default-avatar.png' |
| Leaderboard.TotalSpec | skills-assess-backend/controllers/leaderboardController.js:13 | the total is 0 with no reports and adds over appended reports |
| Leaderboard.OverallSpec | skills-assess-backend/controllers/leaderboardController.js:6-34 | at most 100 rows; one per user; descending by score; each row the user's name, avatar and total; no user off the board has a higher total |
| Leaderboard.TitleBoardSpec | skills-assess-backend/controllers/leaderboardController.js:47-66 | the board is the first min(n, 100) of the title's n rows sorted by score descending (a permutation of the rows), each from a report of that title by an existing user; no row left off scores above a board row |
| Leaderboard.TitleRowsComplete | skills-assess-backend/controllers/leaderboardController.js:53-55 | every report of the title by an existing user gives a row the board is cut from |
| Leaderboard.SkillwiseSpec | skills-assess-backend/controllers/leaderboardController.js:37-80 | one board per distinct title, named by it, each being that title's board: min(n, 100) rows, highest first, each a row of the title, none left off scoring higher |
| Leaderboard.UserTwiceOnBoard | skills-assess-backend/controllers/leaderboardController.js:52-57 | a user with two reports of one title appears twice |
| Leaderboard.RankMonotone | skills-assess-backend/controllers/leaderboardController.js:94-101 | a higher total never gets a larger rank; equal totals share one |
| Leaderboard.RankFirst | skills-assess-backend/controllers/leaderboardController.js:98 | rank 1 exactly when no reporter has a greater total |
| Leaderboard.UserRankingSpec | skills-assess-backend/controllers/leaderboardController.js:83-134 | 401 without a user id; a reporter gets total and rank; a non-reporter gets 'N/A' and 0; skillsMastered counts distinct titles scored above 0 |
| EditProfile.InitialForm | skill-assessment-platform/src/components/Profile/EditProfile.jsx:17-27 | the form copies the profile with '' for missing texts, [] for missing skills, and no id for a missing or zero one |
| EditProfile.AddSkillSpec | skill-assessment-platform/src/components/Profile/EditProfile.jsx:60-68 | a non-empty unlisted skill is appended and the input cleared; otherwise nothing changes; other fields kept |
| EditProfile.AddKeepsDistinct | skill-assessment-platform/src/components/Profile/EditProfile.jsx:61 | a duplicate-free list stays duplicate-free |
| EditProfile.WithoutSpec | skill-assessment-platform/src/components/Profile/EditProfile.jsx:73 | removal leaves no occurrence, distributes over concatenation, and keeps every other skill's count |
| EditProfile.RemoveUndoesAdd | skill-assessment-platform/src/components/Profile/EditProfile.jsx:60-75 | removing a skill just added gives the form back |
| EditProfile.RemoveKeepsFields | skill-assessment-platform/src/components/Profile/EditProfile.jsx:70-75 | name, e-mail, bio and id are kept |
| EditProfile.SaveError | skill-assessment-platform/src/components/Profile/EditProfile.jsx:53-54 | the server's non-empty message, else 'Failed to update profile' |
| Dashboard.FilterMembers | skill-assessment-platform/src/components/dashboard/Dashboard1.jsx:35-40 | a skill is shown exactly when it is listed, its lowercased name contains the lowercased term, and its category matches |
| Dashboard.FilterAppend | skill-assessment-platform/src/components/dashboard/Dashboard1.jsx:35-39 | filtering keeps list order |
| Dashboard.FilterOne | skill-assessment-platform/src/components/dashboard/Dashboard1.jsx:35-39 | a single skill is kept exactly when it matches |
| Dashboard.FilterNothing | skill-assessment-platform/src/components/dashboard/Dashboard1.jsx:36-37 | an empty term with 'All' keeps every skill |
| Dashboard.CategoryOnly | skill-assessment-platform/src/components/dashboard/Dashboard1.jsx:37 | a category other than 'All' keeps only skills of exactly that category |
| Dashboard.ProficiencyColour | skill-assessment-platform/src/components/dashboard/Dashboard1.jsx:77-81 | green from 80, yellow from 50 below 80, red below 50 |
| Dashboard.ColourMonotone | skill-assessment-platform/src/components/dashboard/Dashboard1.jsx:77-81 | a higher score never gets a lower band |
| Dashboard.UserName | skill-assessment-platform/src/components/dashboard/Dashboard1.jsx:43-54 | nothing stored leaves ''; unparsable JSON or no name gives 'Guest'; otherwise the name |
| Dashboard.Greeting | skill-assessment-platform/src/components/dashboard/Dashboard1.jsx:128 | never empty; anything but the stored name is 'Guest' |
| Dashboard.HeaderImage | skill-assessment-platform/src/components/dashboard/Dashboard1.jsx:102-119 | no token gives '/default-profile.jpg'; a profile picture gives its resolved URL; every other source is absolute |
| ProfilePicture.ImageUrl | skill-assessment-platform/src/components/dashboard/Dashboard1.jsx:104-106 | a value starting with 'http' is kept; otherwise the server base plus the path with one leading '/' dropped |
| ProfilePicture.ImageUrlAbsolute | skill-assessment-platform/src/components/blog/BlogLandingPage.jsx:54-56 | every resolved URL starts with 'http', and resolving it again changes nothing |
| ProfilePicture.RelativePath | skill-assessment-platform/src/components/blog/BlogLandingPage.jsx:55-56 | a path with or without its leading '/' resolves alike; only one '/' is dropped |
| ProfilePicture.LoadedProfile | skill-assessment-platform/src/components/blog/BlogLandingPage.jsx:15-37 | without a token no request is made and the profile stays null |
| BlogLanding.HeaderImage | skill-assessment-platform/src/components/blog/BlogLandingPage.jsx:52-70 | the bundled picture without a token or picture; otherwise the resolved URL |
| SkillCard.LabelSpacing | skill-assessment-platform/src/components/dashboard/SkillCard.jsx:13 | every ASCII capital after the first character has a space before it, consecutive capitals included |
| SkillCard.LabelTrimmed | skill-assessment-platform/src/components/dashboard/SkillCard.jsx:13 | the title neither starts nor ends with white space |
| SkillCard.LabelKeepsText | skill-assessment-platform/src/components/dashboard/SkillCard.jsx:13 | deleting all white space from title and key gives the same text |
| SkillCard.LabelUnchanged | skill-assessment-platform/src/components/dashboard/SkillCard.jsx:13 | a key without A-Z and without surrounding white space is its own title; other capitals get no space |
| QuestionScreen.Screen.constructor | skill-assessment-platform/src/components/assessment/QuestionScreen.jsx:5-6 | starts at question 0 with nothing selected |
| QuestionScreen.Screen.Previous | skill-assessment-platform/src/components/assessment/QuestionScreen.jsx:69-75 | disabled at 0; otherwise exactly one back; the index stays non-negative; the selection is kept |
| QuestionScreen.Screen.Next | skill-assessment-platform/src/components/assessment/QuestionScreen.jsx:76-81 | always one forward, never clamped; from the last question the index leaves the list; the selection is kept |
| QuestionScreen.Screen.NextWithinRange | skill-assessment-platform/src/components/assessment/QuestionScreen.jsx:76-81 | with the button disabled on the last question the index stays on a question |
| QuestionScreen.Screen.Choose | skill-assessment-platform/src/components/assessment/QuestionScreen.jsx:54 | clicking option i selects i and keeps the question |
| QuestionScreen.Screen.Shown | skill-assessment-platform/src/components/assessment/QuestionScreen.jsx:29 | on a question the label's number runs from 1 to the count |
| QuestionScreen.NextPastOnlyQuestion | skill-assessment-platform/src/components/assessment/QuestionScreen.jsx:8-22 | with the page's single question, one Next leaves the list |

## Left out

- Connection pools, `getConnection`/`release`, multer storage, `fs` calls, `console` logging and
  HTTP transport are left out.
  - Each SQL statement is a table operation on `Database`.
  - Transactions keep only their all-or-nothing outcome.
  - A `dbError` flag stands for any statement failing before the commit. Where in the
    transaction it fails is not modelled.
- bcrypt hashing and `JSON.stringify` of question options are parameters (`hash`, `encode`),
  since they are foreign functions.
- SQL text is condensed to fixed pieces and `?` holes. The model checks placeholder counts and
  parameter order, not the exact whitespace of the query strings.
- LIKE wildcards and collation are left out. The search conditions are pieces of text, and the
  rows a search matches are an input (`matching`).
- Text comparison in SQL is exact equality, not MySQL's default case-insensitive collation.
  Under that collation "SQL" and "sql" find the same row in:
  - `Tables.FindByName` (`WHERE name = ?`);
  - the subscriber lookups of `BlogRoutes` and `AdminSubscribers`;
  - `Leaderboard.TitleRows` (`ar.title = ?`).
- The recommendation filter's difficulty subquery uses `LIMIT 1` with no ORDER BY, so its
  result is nondeterministic. It is a parameter `picked`. The list query and the count query
  each run this subquery; both are assumed to pick the same difficulty.
- `NOT IN` against a subquery containing NULL is left out: attempts carry real ids.
- Ties in every ORDER BY are broken by input order, since the insertion sort is stable. MySQL
  leaves their order unspecified.
- The overall board scans users in the order of an id list given as a parameter.
- NULL report scores count as 0.
- Floating point is left out: `toFixed(2)`, `parseFloat` and `Math.round(average_score)` in the
  lists. Scores are integers. `AVG` is an exact real.
- `parseInt` beyond 2^53 and query parameters given as arrays are left out. Numbers are
  unbounded integers.
- `Promise.all` in the per-assessment boards: each board is computed alone.
- `toLowerCase` is modelled for ASCII letters only. Other characters keep their case.
- The `capitalize` CSS class on the skill card only changes how the title is displayed.
- ProfileRoutes.UpdateProfile, AdminUsers.UpdateUser, AdminAssessments.UpdateAssessment: after a
  rollback the contracts promise only that the AUTO_INCREMENT counters do not move back, not
  how far they moved. The failing statement is not located, so the number of inserts before it
  is unknown. The one failure the model places is the profile route's 404, which keeps the
  advanced counter.
- A deleted user's links are not cascaded.
- ProfileRoutes.ViewOf, ProfileRoutes.GetProfile, ProfileRoutes.UpdateProfile,
  AdminUsers.UpdateUser, AdminUsers.ReplyListsSentSkills: the reply lists skill names in the
  link table's insertion order. The source's join and `GROUP_CONCAT` have no ORDER BY, so MySQL
  may list them in another order. `GROUP_CONCAT`'s cut at `group_concat_max_len` (1024 bytes by
  default) is not modelled either.
- AdminAssessments.UpdateAssessment: a NULL written into a column declared NOT NULL is one of
  the failures `dbError` stands for. This covers the six basic columns and a question's text,
  answer and options. The schema is not part of this model, so which columns refuse NULL is
  not stated.
- Table names are taken as case-insensitive, as on a server with `lower_case_table_names` set.
  So `users` and `Users` are one table, and so are `userskills` and `UserSkills`. The admin
  routes, the gate and the profile routes then share `Database.users`, and
  `ProfileRoutes.UpdateProfile` can answer with what `ProfileRoutes.GetProfile` reads. On a
  server with case-sensitive names these would be separate tables.
- Admin routes out of this model:
  - creating an assessment, listing/reading single rows, blog post CRUD beyond the image path;
  - statistics other than the pass-rate formula, contact messages;
  - deleting or exporting subscribers, reading settings;
  - backups and the system check.
  They are queries without logic of their own, or shell and OS calls.
- In the front end, image `onError` fallbacks, loading flags, navigation and the progress bar
  width are left out (rendering and floating point). A stored user `name` that is a non-string
  JSON value is left out as well.
- Dashboard.UserName: the stored entry is given already parsed (`Missing`, `Unparsable`,
  `Stored(name)`), since `JSON.parse` is a foreign function.

## Findings

| source | as written | input that shows it | evidently intended | confidence | as-written member | corrected member |
|---|---|---|---|---|---|---|
| skills-assess-backend/routes/adminRoutes.js:388-389 | the pass rate is `total * (average >= 70 ? 1 : 0) / total`, i.e. 100 or 0 by the average | scores 100 and 40: average 70, pass rate 100 | the share of passing attempts, as the statistics route computes at line 808: 50 | medium, not executed | AdminAssessments.PassRateCounterexample | AdminAssessments.PassRatePercentBounds |
| skills-assess-backend/routes/skills.js:162-169 | `IN (?)` with an empty array renders `IN ()`, a syntax error, so the route answers 500 | a user whose only attempt scored 90 (no low score) | an empty list matches nothing and the user gets the category-based recommendations | medium, not executed | Recommendations.RecommendEmptyListFails | Recommendations.RecommendFixedSpec |
| skill-assessment-platform/src/components/assessment/QuestionScreen.jsx:76-81 | Next is never disabled, so `questions[currentQuestion]` is read past the end | one click on Next on the page's single question | Next disabled (or clamped) on the last question | medium, not executed | QuestionScreen.NextPastOnlyQuestion | QuestionScreen.Screen.NextWithinRange |
