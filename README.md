# Safety-training dashboard: the rules behind the screens

This project is a Dafny model of the rule-bearing parts of a React front end for occupational-safety training. Administrators maintain instructions, tests, users and file attachments. Workers read instructions, acknowledge them and take tests. Administrators then browse journals, reports and a dashboard.

Rendering, HTTP and notifications are not modelled. What is modelled is the logic those screens run:

- **Test wizard** (`TestWizard`): the question/answer form and its edits. Each edit keeps the rule "exactly one correct answer per question". The module also has the two-level validator, which reports the first failure, and the request body it builds.
- **Attachments** (`Attachments`): extension extraction, the allow-list and the inclusive 20 MiB limit. It also covers the guard sequence an upload goes through.
- **Instruction editor** (`InstructionsCrud`) and **YouTube link normalisation** (`YouTube`):
  - the kind-dependent validator, the clean-up on a kind change and the request body;
  - the description preview;
  - the three accepted YouTube link shapes.

  Both InstructionsCRUD.jsx and InstructionDetails.jsx carry a copy of `toYouTubeEmbed`. The two copies are identical, branch for branch, and they are one definition here.
- **Instruction page** (`InstructionDetails`): whether an instruction counts as already acknowledged, and the acknowledgement button's state.
- **Taking a test** (`TestPage`): the selection map, the submit guard and the ordered answer list.
- **Admin dashboard** (`AdminDashboard`):
  - the integer statistics, with `calcPercent` computed exactly;
  - the per-user tallies and the top five of the ranking;
  - the ten newest events.
- **User editor** (`UsersCrud`): the save rules and the payload. A password is required only in create mode and is sent only when one was typed. The module also covers the edit-form mapping and the role column.
- **Route guards** (`RouteGuards`): the token guard, the role guard and the way the router stacks them over the two subtrees.
- **Journals and reports** (`Journals`, `AcksJournal`, `TestsJournal`, `ReportsPage`):
  - the filter form and the query parameters built from it;
  - the explicit-versus-form parameter choice and the resets;
  - the column fallbacks, written with `||` and `??`.

Shared helpers follow the JavaScript built-ins the code relies on:

- `Strings` covers `trim`, `includes`/`indexOf`, `split` and `toLowerCase`. `trim` removes exactly the characters ECMAScript counts as WhiteSpace and LineTerminator: TAB, VT, FF, U+FEFF, every Zs space separator, LF, CR, U+2028 and U+2029.
- `Js` covers truthiness and the `||` and `??` operators.
- `Wrappers` holds `Option`.

Code that changes state step by step is modelled as classes with `modifies` clauses. This covers the wizard form, the journal and report pages, the upload panel, the instruction page and the test session. Loops are methods with invariants, each proved against a function that states the result:

- `validate`;
- the tally and event loops of the dashboard;
- its insertion sorts.

Pure decisions are functions, and the properties the code promises are lemmas.

The following inputs are parameters:

- the stored token and user record;
- the responses of API calls (`None` when a request failed);
- the success of an upload or an acknowledgement.

## Model

| member | source | states |
|---|---|---|
| TestWizard.EmptyQuestionShape | src/pages/admin/components/TestWizardDialog.jsx:36-42 | a fresh question has empty text and exactly two empty answers; only the first is correct, so it counts one correct answer |
| TestWizard.WizardForm.constructor | src/pages/admin/components/TestWizardDialog.jsx:50-55 | the form starts with an empty title and instruction, pass score 70 and exactly one fresh question, and satisfies the one-correct-answer rule |
| TestWizard.InitialGuarded | src/pages/admin/components/TestWizardDialog.jsx:50-55 | the initial question list has one correct answer and at least two answers per question |
| TestWizard.WizardForm.SetTitle | src/pages/admin/components/TestWizardDialog.jsx:74-76 | `handleChange("title", v)` sets the title and leaves the instruction, the pass score and the questions unchanged |
| TestWizard.WizardForm.SetInstruction | src/pages/admin/components/TestWizardDialog.jsx:74-76 | `handleChange("instruction_id", v)` sets the instruction and nothing else |
| TestWizard.WizardForm.SetPassScore | src/pages/admin/components/TestWizardDialog.jsx:74-76 | `handleChange("pass_score", v)` sets the pass score and nothing else |
| TestWizard.WizardForm.UpdateQuestionText | src/pages/admin/components/TestWizardDialog.jsx:78-84 | only the text of question `qi` changes; its answers and the other questions stay as they were |
| TestWizard.WizardForm.AddQuestion | src/pages/admin/components/TestWizardDialog.jsx:86-91 | the questions become the old ones followed by exactly one fresh question; the rule is preserved |
| TestWizard.AddQuestionGuarded | src/pages/admin/components/TestWizardDialog.jsx:86-91 | appending a fresh question keeps one correct answer and at least two answers per question |
| TestWizard.Removed | src/pages/admin/components/TestWizardDialog.jsx:96 | `splice(i, 1)`: position `i` goes, earlier items stay, later ones move down by one; an index past the end changes nothing |
| TestWizard.WizardForm.RemoveQuestion | src/pages/admin/components/TestWizardDialog.jsx:93-99 | the questions become the old list with question `qi` spliced out; the other fields stay; the rule is preserved |
| TestWizard.RemoveQuestionGuarded | src/pages/admin/components/TestWizardDialog.jsx:93-99 | removing a question keeps the rule for every remaining one |
| TestWizard.RemoveQuestionUnderGuard | src/pages/admin/components/TestWizardDialog.jsx:224 | under `canRemoveQuestion` (more than one question) a removal keeps the rule, shortens the list by exactly one and never leaves the test without questions |
| TestWizard.WizardForm.AddAnswer | src/pages/admin/components/TestWizardDialog.jsx:101-107 | question `qi` gains one empty, incorrect answer at its end; nothing else changes; the rule is preserved |
| TestWizard.AddAnswerKeepsCount | src/pages/admin/components/TestWizardDialog.jsx:104 | appending an empty incorrect answer leaves the number of correct answers unchanged |
| TestWizard.AddAnswerGuarded | src/pages/admin/components/TestWizardDialog.jsx:101-107 | adding an answer keeps the rule for every question |
| TestWizard.CorrectCountAppend | src/pages/admin/components/TestWizardDialog.jsx:183 | the count of correct answers is additive over concatenation |
| TestWizard.CorrectCountZero | src/pages/admin/components/TestWizardDialog.jsx:115 | the count is zero exactly when no answer is marked correct (`!answers.some(a => a.is_correct)`) |
| TestWizard.CorrectCountOne | src/pages/admin/components/TestWizardDialog.jsx:183-184 | a list in which exactly one answer is marked correct counts one |
| TestWizard.CorrectCountOneAt | src/pages/admin/components/TestWizardDialog.jsx:183-184 | a count of one means there is a single answer marked correct and every other answer is unmarked |
| TestWizard.CorrectCountSplice | src/pages/admin/components/TestWizardDialog.jsx:112 | splicing an answer out lowers the count by that answer's mark |
| TestWizard.WizardForm.RemoveAnswer | src/pages/admin/components/TestWizardDialog.jsx:109-120 | answer `ai` is spliced out of question `qi`, then answer 0 is marked when none is left correct; with more than two answers the rule is preserved |
| TestWizard.RemoveAnswerLeavesCorrect | src/pages/admin/components/TestWizardDialog.jsx:109-120 | the list shrinks by one, and if any answers remain at least one of them is correct |
| TestWizard.RemoveOnlyCorrect | src/pages/admin/components/TestWizardDialog.jsx:113-117 | removing the only correct answer makes answer 0 correct, and it is then the only correct one |
| TestWizard.RemoveAnswerKeepsOne | src/pages/admin/components/TestWizardDialog.jsx:109-120 | from two or more answers with one correct, removing any answer leaves exactly one correct |
| TestWizard.RemoveAnswerGuarded | src/pages/admin/components/TestWizardDialog.jsx:346 | under the delete button's guard (more than two answers), removing an answer keeps the rule |
| TestWizard.WizardForm.UpdateAnswerText | src/pages/admin/components/TestWizardDialog.jsx:122-128 | only the text of answer `ai` of question `qi` changes; the rule is preserved |
| TestWizard.TextEditsGuarded | src/pages/admin/components/TestWizardDialog.jsx:122-128 | editing a question text or an answer text keeps the rule, because no mark changes |
| TestWizard.WizardForm.SetCorrectAnswer | src/pages/admin/components/TestWizardDialog.jsx:131-140 | question `qi`'s answers become the marked list; the other questions and fields are unchanged; for a displayed answer the rule is preserved |
| TestWizard.MarkedExactlyOne | src/pages/admin/components/TestWizardDialog.jsx:131-140 | after `setCorrectAnswer(_, ai)`, answer `i` is correct iff `i == ai`, and every text and the number of answers are unchanged |
| TestWizard.SetCorrectGuarded | src/pages/admin/components/TestWizardDialog.jsx:131-140 | setting the correct answer keeps the rule for every question |
| TestWizard.FirstBlankAnswerNone | src/pages/admin/components/TestWizardDialog.jsx:176-181 | the answer loop finds nothing exactly when every answer from `j` on has non-blank text |
| TestWizard.FirstBlankAnswerIsFirst | src/pages/admin/components/TestWizardDialog.jsx:176-181 | the answer reported is the first blank one |
| TestWizard.QuestionErrorSpec | src/pages/admin/components/TestWizardDialog.jsx:165-187 | a question passes iff its text is not blank, it has at least two answers, no answer is blank and exactly one is correct |
| TestWizard.CheckQuestion | src/pages/admin/components/TestWizardDialog.jsx:165-187 | the loop body's checks, including the inner answer loop, return exactly the complaint the checks give in source order |
| TestWizard.FirstQuestionErrorSpec | src/pages/admin/components/TestWizardDialog.jsx:164-188 | the question loop finds nothing iff every question from `i` on passes |
| TestWizard.FirstQuestionErrorIsFirst | src/pages/admin/components/TestWizardDialog.jsx:164-188 | the complaint reported is the one about the first failing question |
| TestWizard.FormErrorNoneIff | src/pages/admin/components/TestWizardDialog.jsx:142-191 | validate accepts iff: the title is not blank; an instruction is chosen; the pass score is a finite number from 0 to 100; there is at least one question; every question passes |
| TestWizard.WizardForm.Validate | src/pages/admin/components/TestWizardDialog.jsx:142-191 | the nested loops with early returns report exactly the first failure, in the order title, instruction, score, question count, then per question |
| TestWizard.PayloadCorrectCountSame | src/pages/admin/components/TestWizardDialog.jsx:208 | copying each `is_correct` flag keeps the count of correct answers |
| TestWizard.AcceptedQuestionPayload | src/pages/admin/components/TestWizardDialog.jsx:204-210 | an accepted question maps to a payload whose text and answer texts are trimmed and non-empty, with the same number and order of answers, the same marks and one correct answer |
| TestWizard.AcceptedPayload | src/pages/admin/components/TestWizardDialog.jsx:200-211 | an accepted form's payload has the trimmed non-empty title, the chosen instruction and an in-range score, plus one accepted question payload per question, in order |
| TestWizard.WizardForm.Save | src/pages/admin/components/TestWizardDialog.jsx:193-211 | a request is produced iff the form validates, and it is then exactly the mapped payload |
| Attachments.AfterLastDotAt | src/pages/admin/AttachmentsManager.jsx:41-42 | with a dot at `k` and none after it, the text after the last dot is `s[k+1..]` |
| Attachments.AfterLastDotHasNoDot | src/pages/admin/AttachmentsManager.jsx:41-42 | the text after the last dot contains no dot |
| Attachments.SplitLastIsAfterLastDot | src/pages/admin/AttachmentsManager.jsx:41-42 | the last piece of `name.split(".")` is the text after the last dot |
| Attachments.GetFileExtSpec | src/pages/admin/AttachmentsManager.jsx:39-43 | the extension is "" for a name without a dot (the empty name included); otherwise it is the lower-cased text after the last dot; it never contains a dot |
| Attachments.ValidateFileAcceptedIff | src/pages/admin/AttachmentsManager.jsx:132-147 | a file passes iff it exists, has a dot, its lower-cased text after the last dot is pdf, docx or pptx, and its size is at most 20·1024·1024 |
| Attachments.FormatCheckedBeforeSize | src/pages/admin/AttachmentsManager.jsx:135-146 | a disallowed extension is reported as a format error whatever the size |
| Attachments.SizeLimitInclusive | src/pages/admin/AttachmentsManager.jsx:141-144 | a file of exactly 20971520 bytes passes and one of 20971521 bytes is too large |
| Attachments.AfterLastDotLower | src/pages/admin/AttachmentsManager.jsx:42 | lower-casing commutes with taking the text after the last dot |
| Attachments.ValidateFileIgnoresCase | src/pages/admin/AttachmentsManager.jsx:135-139 | the verdict on a file is unchanged when its name is lower-cased |
| Attachments.UploadPanel.constructor | src/pages/admin/AttachmentsManager.jsx:61-77 | no instruction chosen, no attachments, not uploading, progress 0, no file picked |
| Attachments.UploadPanel.Pick | src/pages/admin/AttachmentsManager.jsx:151 | the picker holds the chosen file; nothing else changes |
| Attachments.UploadPanel.SelectInstruction | src/pages/admin/AttachmentsManager.jsx:124-129 | the chosen instruction is stored; the list is emptied, or for a chosen instruction replaced by what the fetch returned |
| Attachments.UploadPanel.HandleUpload | src/pages/admin/AttachmentsManager.jsx:150-183 | guard order: no file, then no instruction, then the file check. A file is sent iff all three pass; any other outcome names the reason. The picker is cleared, and the list changes only after a successful upload |
| InstructionsCrud.FindOption | src/pages/admin/InstructionsCRUD.jsx:69 | `find` returns an option with the given value, or none exists |
| InstructionsCrud.TypeLabel | src/pages/admin/InstructionsCRUD.jsx:62-70 | the three known kinds show their labels; any other kind shows itself, and the empty kind shows "-" |
| InstructionsCrud.ChangeKind | src/pages/admin/InstructionsCRUD.jsx:149-162 | video clears the content, text and pdf clear the link, other kinds only change the kind; the title is never touched |
| InstructionsCrud.ChangeKindInvisible | src/pages/admin/InstructionsCRUD.jsx:149-162 | the clean-up never changes what the validator decides or what is sent |
| InstructionsCrud.ValidateFormIff | src/pages/admin/InstructionsCRUD.jsx:164-187 | the form passes iff the title is not blank, a text instruction has non-blank content, and a video has a non-blank link whose trimmed form `toYouTubeEmbed` accepts; a pdf needs nothing else |
| InstructionsCrud.AcceptedPayload | src/pages/admin/InstructionsCRUD.jsx:193-198 | a video sends content "" and a trimmed, non-empty, accepted link. Any other kind sends trimmed content and a null link, and a text instruction's content is non-empty. The title is trimmed and non-empty |
| InstructionsCrud.SaveRequest | src/pages/admin/InstructionsCRUD.jsx:200-206 | a request is made iff the form validates: a create in create mode, an update of `current.id` in edit mode |
| InstructionsCrud.ContentPreviewShape | src/pages/admin/InstructionsCRUD.jsx:286-290 | the preview is "-" for empty or missing text, the text itself up to 90 characters, and otherwise its first 90 characters followed by "..."; it always has 1 to 93 characters |
| YouTube.NullCases | src/pages/admin/InstructionsCRUD.jsx:43-60 | empty input, and input matching none of the three patterns, give null |
| YouTube.StripLeadingC0 | src/pages/admin/InstructionsCRUD.jsx:47 | the URL parser's leading clean-up: the result is a suffix of the input, it does not start with a C0 control or space, and everything cut off is one |
| YouTube.StripTrailingC0 | src/pages/admin/InstructionsCRUD.jsx:47 | the trailing clean-up: the result is a prefix, it does not end with a C0 control or space, and everything cut off is one |
| YouTube.RemoveTabNewline | src/pages/admin/InstructionsCRUD.jsx:47 | the result holds no tab or newline, and a text without them is kept as it is |
| YouTube.InputOfPadded | src/pages/admin/InstructionsCRUD.jsx:47 | C0 controls and spaces around a clean text are exactly what the parser drops |
| YouTube.PaddedWatchLink | src/pages/user/InstructionDetails.jsx:31-35 | a watch link of a video id, with surrounding spaces or C0 controls as a stored link may carry, still gives the embed link of that id |
| YouTube.PrefixedIsEmbed | src/pages/admin/InstructionsCRUD.jsx:49 | `https://www.youtube.com/embed/` followed by any id contains `youtube.com/embed/` |
| YouTube.ResultIsEmbed | src/pages/admin/InstructionsCRUD.jsx:43-60 | whatever `toYouTubeEmbed` returns is an embed link |
| YouTube.WatchLink | src/pages/admin/InstructionsCRUD.jsx:46-50 | `https://www.youtube.com/watch?v=ID` gives `https://www.youtube.com/embed/ID` |
| YouTube.ShortLink | src/pages/admin/InstructionsCRUD.jsx:51-53 | `https://youtu.be/ID`, with or without a query, gives the embed link of ID, and null when the id is empty |
| YouTube.ShortLinkIdIs | src/pages/admin/InstructionsCRUD.jsx:52 | for a video id followed by nothing or by `?` and a simple query, the id cut from the short link is that video id |
| YouTube.EmbedLinkFixed | src/pages/admin/InstructionsCRUD.jsx:55 | an embed link of a video id is returned unchanged |
| YouTube.WatchAndShortAgree | src/pages/user/InstructionDetails.jsx:22-41 | a watch link and a short link with the same video id give the same embed link, as the function's doc comment says |
| InstructionDetails.EmbedUrl | src/pages/user/InstructionDetails.jsx:62-65 | a loaded instruction with a link gets exactly that link normalised; with no instruction or no link there is no player link |
| InstructionDetails.WatchVideoEmbeds | src/pages/user/InstructionDetails.jsx:62-65 | a loaded instruction whose link is `https://www.youtube.com/watch?v=<id>`, for a video id, gets the player link `https://www.youtube.com/embed/<id>` |
| InstructionDetails.AlreadyAckedIff | src/pages/user/InstructionDetails.jsx:77-83 | already acknowledged iff one of `acked`, `is_acknowledged`, `acknowledged`, `acked_at` is truthy; a record with none of them is not |
| InstructionDetails.InstructionPage.constructor | src/pages/user/InstructionDetails.jsx:55-60 | nothing is loaded and the instruction is not acknowledged |
| InstructionDetails.InstructionPage.Load | src/pages/user/InstructionDetails.jsx:67-90 | a successful load stores the record and sets `acked` to the derived flag; a failed one changes neither |
| InstructionDetails.InstructionPage.Ack | src/pages/user/InstructionDetails.jsx:96-105 | `acked` becomes `old acked || succeeded`, so once true it stays true; the busy flag ends false; after success the button is disabled |
| TestPage.NoQuestionsNeverAnswered | src/pages/user/TestPage.jsx:67-68 | a test without questions is never all answered |
| TestPage.TestSession.constructor | src/pages/user/TestPage.jsx:28-33 | no questions and no selections |
| TestPage.TestSession.Load | src/pages/user/TestPage.jsx:38-54 | a loaded test replaces the questions and clears every selection; a failed load changes nothing |
| TestPage.TestSession.Select | src/pages/user/TestPage.jsx:60-65 | the entry for the question becomes the answer, and every other entry is unchanged |
| TestPage.SelectTouchesOneQuestion | src/pages/user/TestPage.jsx:60-65 | after a selection, that question is answered iff the answer is non-empty, and every other question's state is unchanged |
| TestPage.ReselectKeepsAllAnswered | src/pages/user/TestPage.jsx:60-68 | changing a selection to another non-empty answer keeps the test submittable |
| TestPage.PayloadFollowsQuestions | src/pages/user/TestPage.jsx:76-81 | the answer list names the questions in test order, one entry each, each with the non-empty selected answer |
| TestPage.TestSession.Submit | src/pages/user/TestPage.jsx:70-81 | a list is sent iff every question is answered. It then has one `{questionId, answerId}` entry per question, in question order |
| AdminDashboard.CalcPercentRounds | src/pages/admin/AdminDashboard.jsx:40-43 | the percentage is `100·part/total` rounded to the nearest whole number, halves up |
| AdminDashboard.CalcPercentBounded | src/pages/admin/AdminDashboard.jsx:40-43 | a part of a whole gives at most 100 |
| AdminDashboard.PassedCountBounded | src/pages/admin/AdminDashboard.jsx:118 | the passed count is at most the number of attempts, and equals it iff every attempt passed |
| AdminDashboard.StatsConsistent | src/pages/admin/AdminDashboard.jsx:110-141 | passed plus failed attempts make up all attempts, and failed is never negative. The pass rate lies in 0..100: it is 0 with no attempts and 100 when none failed |
| AdminDashboard.FirstAckUser | src/pages/admin/AdminDashboard.jsx:150 | a record is kept for a user iff they acknowledged something, and it carries their id |
| AdminDashboard.FirstLogUser | src/pages/admin/AdminDashboard.jsx:157 | a record is kept for a user iff they made an attempt, and it carries their id |
| AdminDashboard.UserRecord | src/pages/admin/AdminDashboard.jsx:150-157 | the tally keeps a record iff the user has any activity, and it carries their id |
| AdminDashboard.CountAcks | src/pages/admin/AdminDashboard.jsx:147-152 | the first loop tallies exactly the users with acknowledgements. Each tally holds the user's first record, their acknowledgement count and no attempts |
| AdminDashboard.AckStep | src/pages/admin/AdminDashboard.jsx:147-152 | one more acknowledgement raises only its user's count and keeps any record already seen |
| AdminDashboard.LogStep | src/pages/admin/AdminDashboard.jsx:154-159 | one more attempt raises only its user's count and keeps any record already seen |
| AdminDashboard.RecordStep | src/pages/admin/AdminDashboard.jsx:157 | an attempt sets the kept record only for a user who had none |
| AdminDashboard.AttemptTallied | src/pages/admin/AdminDashboard.jsx:154-159 | counting an attempt made by a user with an id keeps every tally correct |
| AdminDashboard.AttemptIgnored | src/pages/admin/AdminDashboard.jsx:156 | an attempt without a user id leaves every tally correct as it is |
| AdminDashboard.CountAttempts | src/pages/admin/AdminDashboard.jsx:154-159 | the second loop tallies exactly the users with any activity. Each tally holds the kept record, their acknowledgement count and their attempt count |
| AdminDashboard.Tallies | src/pages/admin/AdminDashboard.jsx:145-159 | the map holds exactly the active users, each with the correct record and counts, keyed by their id |
| AdminDashboard.MissingUserIgnored | src/pages/admin/AdminDashboard.jsx:147-159 | an acknowledgement or an attempt without a user id (missing, or the falsy id 0) adds to nobody's counts |
| AdminDashboard.SumAckCountsStep | src/pages/admin/AdminDashboard.jsx:147-152 | one more acknowledgement adds to the summed tallies once per listed user it belongs to |
| AdminDashboard.HitsDistinct | src/pages/admin/AdminDashboard.jsx:148 | over distinct ids a record belongs to exactly one listed user if its id is listed, else none |
| AdminDashboard.AckTalliesAddUp | src/pages/admin/AdminDashboard.jsx:147-152 | over the users, the acknowledgement tallies add up to the number of acknowledgements that carry a user id |
| AdminDashboard.InsertRankedSpec | src/pages/admin/AdminDashboard.jsx:166 | inserting an entry into a ranked list keeps it ranked and adds exactly that entry |
| AdminDashboard.RankTallies | src/pages/admin/AdminDashboard.jsx:161-166 | every tally appears with `total = acks + attempts`, in ranking order: more activity first, ties by ascending id |
| AdminDashboard.TopUsers | src/pages/admin/AdminDashboard.jsx:144-168 | at most five correct entries in ranking order. A user left out means five are shown, and every one shown outranks them |
| AdminDashboard.CollectEvents | src/pages/admin/AdminDashboard.jsx:172-194 | one event per acknowledgement, then one per attempt, each in log order, with the fallback labels |
| AdminDashboard.TimedSpec | src/pages/admin/AdminDashboard.jsx:197 | the filter keeps exactly the events that have a time |
| AdminDashboard.KeepTimed | src/pages/admin/AdminDashboard.jsx:197 | the loop result is the filtered list, and every event in it has a time |
| AdminDashboard.InsertByTimeElements | src/pages/admin/AdminDashboard.jsx:198 | insertion adds exactly the new event to the multiset |
| AdminDashboard.InsertByTimeOrdered | src/pages/admin/AdminDashboard.jsx:198 | insertion keeps a newest-first list newest first |
| AdminDashboard.SortNewestFirst | src/pages/admin/AdminDashboard.jsx:198 | the sorted list is newest first and a permutation of its input |
| AdminDashboard.LeftOutNoNewer | src/pages/admin/AdminDashboard.jsx:199 | an event beyond the first `n` of a newest-first list is no newer than any of them |
| AdminDashboard.TakeNewest | src/pages/admin/AdminDashboard.jsx:199 | the first `n` are newest first, drawn from the list, and at least as new as every event left out |
| AdminDashboard.LatestEvents | src/pages/admin/AdminDashboard.jsx:171-200 | `min(10, timed events)` events, newest first, each a timed logged event; any timed event left out is no newer than any shown |
| UsersCrud.HandleSave | src/pages/admin/UsersCRUD.jsx:126-157 | a request is made iff name and email are non-blank and, in create mode, the password too. It is a create, or an update of `current.id`, carrying the trimmed payload |
| UsersCrud.PasswordSentIff | src/pages/admin/UsersCRUD.jsx:141 | the password is sent iff its trimmed text is non-empty, and then trimmed; a created user always sends one |
| UsersCrud.AcceptedPayloadClean | src/pages/admin/UsersCRUD.jsx:133-138 | full name, group and email are sent trimmed, name and email non-empty; the role passes through unchanged |
| UsersCrud.EditForm | src/pages/admin/UsersCRUD.jsx:104-115 | the edit form shows `full_name`, or `name` when it is missing, plus the group name and the email. The password is empty, and the role is the row's, or "user" when it has none |
| UsersCrud.EditFormAnyRow | src/pages/admin/UsersCRUD.jsx:104-115 | for every row: saving the edit form never sends a password. It is accepted iff the shown name and the email are not blank, and a row without `full_name` sends its trimmed `name` |
| UsersCrud.EditUnchangedRoundTrip | src/pages/admin/UsersCRUD.jsx:104-115 | opening a tidy user and saving unchanged is accepted in edit mode and resends the user's own data, with the defaulted role and no password |
| UsersCrud.RoleLabelMatchesOptions | src/pages/admin/UsersCRUD.jsx:202-203 | the role column shows each selectable role with the selector's caption |
| RouteGuards.ProtectedRoute | src/components/ProtectedRoute.jsx:4-12 | it redirects iff there is no token, and then to /login with the original location in `from` |
| RouteGuards.ProtectedRouteOnlyToken | src/components/ProtectedRoute.jsx:4-12 | the decision depends only on whether a token is present |
| RouteGuards.RoleGuard | src/components/RoleGuard.jsx:4-18 | no user goes to /login; with a user it renders iff the role is allowed; a disallowed admin goes to /admin and anyone else to /dashboard |
| RouteGuards.GuardedPage | src/app/router.jsx:44-48 | a guarded page applies the token check first, then the role check |
| RouteGuards.OneRedirectReachesHome | src/components/RoleGuard.jsx:12-14 | for the roles user and admin one redirect lands on a page of the subtree that admits them, and it renders |
| RouteGuards.UnknownRoleNeverRenders | src/components/RoleGuard.jsx:12-14 | any other role is admitted by neither subtree and is sent to /dashboard again and again |
| Journals.Cleared | src/pages/admin/AcksJournal.jsx:103-108 | the cleared form holds exactly the filter fields, each "" |
| Journals.KeepsFilledUnique | src/pages/admin/ReportsPage.jsx:82-95 | the filled-fields promise fixes the parameters: one form, one parameter set |
| Journals.ClearedAsksNothing | src/pages/admin/AcksJournal.jsx:86-93 | an all-empty form builds `{}` |
| Journals.ClearedBuildsEmpty | src/pages/admin/AcksJournal.jsx:101-110 | `{}` is what the cleared form would ask for |
| Journals.FilledFieldSent | src/pages/admin/AcksJournal.jsx:86-93 | a filled filter field is always sent, with its text unchanged |
| Journals.LoadParams | src/pages/admin/AcksJournal.jsx:69 | explicit parameters win, even `{}`; only their absence falls back to the form's |
| Journals.UserCell | src/pages/admin/AcksJournal.jsx:119-120 | the user column is `full_name`, then `email`, then `user_id`, then "-": the first truthy of them, never an empty cell; the tests journal (TestsJournal.jsx:123-124) uses the same chain |
| Journals.UserCellWithoutUser | src/pages/admin/AcksJournal.jsx:119-120 | a row without a user object shows its `user_id`, or "-" when that is falsy too |
| AcksJournal.BuildParams | src/pages/admin/AcksJournal.jsx:86-93 | each of `date_from`, `date_to`, `user_id`, `instruction_id` is sent iff filled, with its value; no other key is sent |
| AcksJournal.AcksJournalPage.constructor | src/pages/admin/AcksJournal.jsx:41-46 | the form starts cleared and the mount load asks for `{}` |
| AcksJournal.AcksJournalPage.HandleChange | src/pages/admin/AcksJournal.jsx:95-97 | one field changes and nothing is requested |
| AcksJournal.AcksJournalPage.Load | src/pages/admin/AcksJournal.jsx:63-79 | one more request: the explicit parameters, or else exactly the form's filled fields |
| AcksJournal.AcksJournalPage.ApplyFilters | src/pages/admin/AcksJournal.jsx:99 | one more request with the form's filled fields |
| AcksJournal.AcksJournalPage.ResetFilters | src/pages/admin/AcksJournal.jsx:101-110 | every field becomes "" and one more request asks for `{}`, which is what the cleared form asks for |
| AcksJournal.InstructionCell | src/pages/admin/AcksJournal.jsx:127-128 | the instruction column is `instruction.title`, then `instruction_id`, then "-": the first truthy, never empty |
| TestsJournal.BuildParams | src/pages/admin/TestsJournal.jsx:67-75 | each of the five filter keys, `test_id` among them, is sent iff filled, with its value; no other key is sent |
| TestsJournal.TestsJournalPage.constructor | src/pages/admin/TestsJournal.jsx:44-50 | the form starts cleared and the mount load asks for `{}` |
| TestsJournal.TestsJournalPage.HandleChange | src/pages/admin/TestsJournal.jsx:98-100 | one field changes and nothing is requested |
| TestsJournal.TestsJournalPage.Load | src/pages/admin/TestsJournal.jsx:77-90 | one more request: the explicit parameters, or else exactly the form's filled fields |
| TestsJournal.TestsJournalPage.ApplyFilters | src/pages/admin/TestsJournal.jsx:102 | one more request with the form's filled fields |
| TestsJournal.TestsJournalPage.ResetFilters | src/pages/admin/TestsJournal.jsx:104-114 | all five fields become "" and one more request asks for `{}` |
| TestsJournal.GroupCell | src/pages/admin/TestsJournal.jsx:130 | the group column shows a truthy `group_name`, else "-" |
| TestsJournal.TestCell | src/pages/admin/TestsJournal.jsx:137-138 | the test column is `title`, then `name`, then `test_id`, then "-": the first truthy, never empty |
| TestsJournal.InstructionCell | src/pages/admin/TestsJournal.jsx:146 | the instruction column shows a truthy `test.instruction.title`, else "-", with no fallback to an id |
| TestsJournal.ScoreCell | src/pages/admin/TestsJournal.jsx:152 | the score column shows "-" only for a missing score, so a score of 0 is shown as 0 |
| ReportsPage.BuildParams | src/pages/admin/ReportsPage.jsx:82-95 | each of the five filter keys is sent iff filled, with its value; no other key is sent |
| ReportsPage.ReportsView.constructor | src/pages/admin/ReportsPage.jsx:146-150 | the form starts cleared and the mount load asks for both reports with `{}` |
| ReportsPage.ReportsView.HandleChange | src/pages/admin/ReportsPage.jsx:78-80 | one field changes and nothing is requested |
| ReportsPage.ReportsView.LoadReports | src/pages/admin/ReportsPage.jsx:113-133 | both reports are requested once more, with identical parameters that are exactly the form's filled fields |
| ReportsPage.ReportsView.ExportPdf | src/pages/admin/ReportsPage.jsx:152-167 | the export asks with the form's filled fields; while the form still matches the shown report, these are the report's own parameters |
| ReportsPage.ReportsView.ResetFilters | src/pages/admin/ReportsPage.jsx:135-144 | every field becomes "" and, unlike the journals, nothing is requested |
| ReportsPage.ResetLeavesViewStale | src/pages/admin/ReportsPage.jsx:135-144 | after a reset, a report loaded with any filter no longer matches the form |
| ReportsPage.InstructionTitleCell | src/pages/admin/ReportsPage.jsx:177-178 | `instruction.title`, then `instruction_title`, then `title`, then "-": the first truthy, never empty |
| ReportsPage.ViewsCell | src/pages/admin/ReportsPage.jsx:184-185 | `views_count ?? acks_count ?? count ?? "-"`: the first defined value |
| ReportsPage.ViewsKeepZero | src/pages/admin/ReportsPage.jsx:184-185 | the first defined count is shown even when it is 0, and "-" only when none is defined; `\|\|` would have hidden a 0 |
| ReportsPage.TestTitleCell | src/pages/admin/ReportsPage.jsx:205-206 | `test.title`, then `test_title`, then `title`, then "-": the first truthy, never empty |
| ReportsPage.TestInstructionCell | src/pages/admin/ReportsPage.jsx:213-214 | `instruction.title`, then `instruction_title`, then "-": the first truthy, never empty |
| ReportsPage.AttemptsCell | src/pages/admin/ReportsPage.jsx:220 | `attempts ?? count ?? "-"`: the first defined value |
| ReportsPage.PassedCountCell | src/pages/admin/ReportsPage.jsx:226 | `passed_count ?? "-"`: "-" only when missing |
| ReportsPage.TestCountsKeepZero | src/pages/admin/ReportsPage.jsx:220-226 | zero attempts and zero passes are shown as 0 |
| Js.FirstTruthyPicks | src/pages/admin/AcksJournal.jsx:120 | a `\|\|` chain yields its first truthy operand |
| Js.FirstTruthyFallsThrough | src/pages/admin/AcksJournal.jsx:120 | with no truthy operand a `\|\|` chain yields its last operand |
| Js.FirstTruthyIsTruthy | src/pages/admin/AcksJournal.jsx:120 | a `\|\|` chain ending in "-" is always truthy |
| Js.FirstDefinedPicks | src/pages/admin/ReportsPage.jsx:185 | a `??` chain yields its first defined operand, even 0 or "" |
| Js.OrVersusCoalesce | src/pages/admin/ReportsPage.jsx:185 | `\|\|` and `??` differ exactly on defined falsy values |
| Strings.TrimShape | src/pages/admin/UsersCRUD.jsx:129-130 | `trim` removes whitespace only, from both ends, and leaves a text that starts and ends with a non-whitespace character |
| Strings.TrimEmptyIffBlank | src/pages/admin/UsersCRUD.jsx:129-130 | the trimmed text is empty iff every character is whitespace |
| Strings.TrimIdempotent | src/pages/admin/UsersCRUD.jsx:133-138 | trimming twice is trimming once |
| Strings.TrimIsEmpty | src/pages/admin/components/TestWizardDialog.jsx:143 | the `!s.trim()` test is true iff the text is blank |
| Strings.IndexOfFirst | src/pages/admin/InstructionsCRUD.jsx:46 | `indexOf` finds an occurrence, and there is none before it; no result means no occurrence anywhere |
| Strings.ContainsIff | src/pages/admin/InstructionsCRUD.jsx:46 | `includes` holds iff the pattern occurs somewhere |
| Strings.SplitJoin | src/pages/admin/AttachmentsManager.jsx:41 | joining the pieces of `split` with the separator gives back the text |
| Strings.SplitPiecesFree | src/pages/admin/AttachmentsManager.jsx:41 | no piece of `split` contains the separator |
| Strings.SplitSingleIff | src/pages/admin/AttachmentsManager.jsx:42 | `split` gives a single piece iff the separator does not occur |
| Strings.SplitLast | src/pages/admin/AttachmentsManager.jsx:42 | with two or more pieces, the text is the earlier pieces joined, then the separator, then the last piece |
| Strings.ToLowerKeepsOthers | src/pages/admin/AttachmentsManager.jsx:42 | `toLowerCase` keeps the length and every character that is not an upper-case letter |

## Left out

- Rendering, MUI and DataGrid configuration, layouts, menus, loaders and dialogs are left out: they are presentation only.
- HTTP calls, the axios interceptors and the toasts are not modelled. API results and success flags are method parameters, and validator failures are error values.
- `src/utils/token.js` is not part of this model, and neither is local storage: the guards take the token and the user record as inputs.
- Concurrency is not modelled: asynchronous and parallel loading, loading and exporting flags, and the React effect and memo lifecycles.
- React's stale closure is not modelled. `resetFilters` calls `load({})` and `loadReports` right after a state update. The model only fixes what the request carries, which is `{}` in the journals.
- Floating point is left out. `avgScore` with `toFixed`, `formatBytes`, the average-score column and the upload progress percentage are not modelled.
- `AdminDashboard.CalcPercentRounds`: describes exact round-half-up of 100·part/total. JavaScript computes `Math.round((part / total) * 100)` in floating point, which can land just below a half. For 23 of 40, `(23/40)*100` is 57.49999999999999, so the source shows 57 where the model gives 58. For 29 of 200 the source shows 14 and the model 15.
- Timestamps are integers, or absent. Date parsing, `toLocaleString`, `formatDate` and invalid dates are left out.
- `Number(form.pass_score)` string parsing is left out: the pass-score field holds the already-converted number (NaN, finite or infinite).
- Strings are sequences of Unicode characters. JavaScript's UTF-16 lengths, used in the 90-character preview, are not modelled.
- `Strings.ToLower`: lower-cases the ASCII letters A–Z only. Full Unicode case mapping is not modelled.
- `YouTube.ToYouTubeEmbed`: takes the URL parser's input clean-up from the WHATWG URL Standard (section 4.4, basic URL parser). Leading and trailing C0 controls and spaces are stripped, and every ASCII tab and newline is removed. After that clean-up the model checks only that the text starts with a syntactically valid scheme. That check is a necessary condition for `new URL` not to throw, not a sufficient one. A watch link with a valid scheme that the parser still rejects, an invalid host say, throws in the source and gives null there. In the model the same link can yield an embed link.
- `YouTube.ToYouTubeEmbed`: reads `searchParams.get("v")` as the first `v=` pair of the query, without percent-decoding and without turning '+' into a space.
- `YouTube.ShortLink`: is stated for ids made of letters, digits, '_' and '-', with an optional simple query.
- `YouTube.WatchLink`: is stated for ids made of letters, digits, '_' and '-'.
- `YouTube.ShortLinkIdIs`: is stated for such ids followed by nothing or by `?` and a simple query. It does not describe the general cut: `split("youtu.be/")[1]` also stops at a second `youtu.be/`, so `https://youtu.be/x/youtu.be/y?z` gives `x/`.
- `YouTube.PaddedWatchLink`: is stated for ids made of letters, digits, '_' and '-'.
- `YouTube.EmbedLinkFixed`: is stated for ids made of letters, digits, '_' and '-'.
- `YouTube.WatchAndShortAgree`: is stated for ids made of letters, digits, '_' and '-'.
- `InstructionDetails.WatchVideoEmbeds`: is stated for ids made of letters, digits, '_' and '-'.
- `AdminDashboard.TopUsers`: gives ties the order of ascending user id. This rests on `Object.values` listing integer-like keys in ascending order, which ids of 2^32−1 and above do not follow. The model does not cover that range.
- `AdminDashboard.LatestEvents`: does not state that events with equal times keep their push order. The model sorts by stable insertion, but stability is not among the proved properties.
- `AdminDashboard.CollectEvents`: takes a missing instruction or test object as an empty title, which falls back to the default label.
- `TestWizard.FormError`: treats the chosen instruction as a string, and `""` is none chosen. The source tests `!form.instruction_id`, which also sees a numeric id taken from the select's menu item. An id of 0 would be falsy there, and that case is not modelled.
- `TestWizard.WizardForm.SetCorrectAnswer`: promises to keep the "one correct answer" rule only for an answer index that is shown. In the source each answer has its own checkbox, and its `onChange` calls `setCorrectAnswer` with that answer's index (TestWizardDialog.jsx:355-357), so only shown indices arrive. Unticking a ticked box also calls it, which marks the same answer again: a box cannot be cleared that way.
- `AcksJournal.BuildParams`, `TestsJournal.BuildParams`, `ReportsPage.BuildParams` and the shared `Journals` fields: take every filter id as a string, with "" for unset. The selects store the numeric id of the chosen menu item (AcksJournal.jsx:192,207; TestsJournal.jsx:231,246,261; ReportsPage.jsx:303,318), and `if (f.user_id)` drops an id of 0 as falsy. The model does not cover an id of 0.
- `Attachments.UploadPanel`: takes the chosen instruction as a string, with "" for none. The select stores a numeric id (AttachmentsManager.jsx:307), and `if (id)` and `if (!instructionId)` treat an id of 0 as none chosen. The model does not cover an id of 0.
- `selectedInstruction` on the attachments page is display data and is not modelled. `loadInstructions`, `loadLists` and the option lists of the filter selects are not modelled either.
- The journals' and reports' `loadLists` is not modelled: it only fills the filter dropdowns.
- Both copies of `toYouTubeEmbed`, in InstructionsCRUD.jsx and InstructionDetails.jsx, are one definition here, because they agree branch for branch.
- Row ids built from `Math.random` and `downloadBlob` are left out.
- The yup schema of the login page and the display-only pages are left out.
