# Student achievement records: a verified model

The system is a web application for a college. Students submit their
achievements (hackathons, papers, certifications, …) with a certificate
file. Faculty members of the student's department approve or reject them.
Faculty can also file an achievement for a student, which is approved on
the spot. Admins manage the achievement categories. Everything lives in
four document collections: `achievements`, `notifications`, `categories`
and `users`. Certificates live in a file bucket.

This project models that core in Dafny:

- **Records** (`types.dfy`): roles, statuses and the documents, each with
  its wire strings.
- **Services**, as classes over a `map` from document id to document, with
  a counter for fresh ids:
  - `achievement_service.dfy`: create, attach a certificate, review, delete,
    and the three listings.
  - `storage.dfy`: the certificate bucket.
  - `notification_service.dfy`: create, mark read, delete, list, count.
  - `admin_service.dfy`: category add, update, delete and the dashboard
    counters.
  - `auth_service.dfy`: registration, login, the profile lookup with its
    bounded retry, and the two Google paths.
- **Screens**, as classes whose fields are the screen's state:
  - `faculty_verification.dfy`: the review screen and its department gate.
  - `verified_achievements.dfy`: the list of decided records.
  - `faculty_view_students.dfy`: the student directory.
  - `faculty_upload.dfy`, `student_submit.dfy`, `student_upload.dfy`: the
    three upload screens.
  - `achievement_components.dfy`: the submission form and the record list.
  - `categories_page.dfy`: the admin category page.
  - `auth_forms.dfy`: the login form.
  - `layout.dfy`: the role menu.
- **Shared pieces**:
  - `views.dfy`: the status tab, the search and the date order.
  - `submission.dfy`: the tag parser, the progress bar and the category
    loading with its seeding.
  - `firebase_errors.dfy`: the error-message classifier.
  - `text.dfy` and `lists.dfy`: string and list operations with ASCII
    semantics.
  - `wrappers.dfy`: `Option` and `Result`.

How the outside world is represented:

- Every backend call that can fail takes a `fail` flag, chosen by the
  caller. A failed call throws, as the services do, and the model follows
  the screen's `catch`.
- Clock readings are `now: int` milliseconds.
- The date typed into a form is `when: Option<int>`; `None` stands for a
  text that is not a date. The record is then refused with
  `Invalid time value`.
- A collection read lists the documents in id order.

## Model

| member | source | states |
|---|---|---|
| AchievementService.NewAchievement | src/services/achievementService.ts:33-56 | a new record is pending, unreviewed and without certificate, has department and studentDepartment equal to the given department, is not public, and carries the given id, student, title and tags |
| AchievementService.WithCertificate | src/services/achievementService.ts:74-79 | the certificate patch sets URL, file name, size and update time and leaves the submission and the review untouched |
| AchievementService.WithReview | src/services/achievementService.ts:174-181 | the review patch sets status, remarks and verifier, leaves submission and certificate untouched, and sets a verification date exactly when the status is not pending |
| AchievementService.ReviewOverwrites | src/services/achievementService.ts:174-181 | a second review replaces every trace of the first |
| AchievementService.ReviewBackToPending | src/services/achievementService.ts:179 | the verification date is cleared if and only if the new status is pending |
| AchievementService.CertificateAndReviewCommute | src/services/achievementService.ts:74-79 | attaching a certificate and reviewing commute: they write disjoint fields |
| AchievementService.CertificatePathsDistinct | src/services/achievementService.ts:69 | two different achievements of one student get different certificate paths for the same file name |
| AchievementService.AchievementStore.constructor | src/services/achievementService.ts:17 | the collection starts empty and consistent |
| AchievementService.AchievementStore.CreateAchievement | src/services/achievementService.ts:19-62 | succeeds exactly when the date converts and the write succeeds; then exactly one fresh id is added, holding the new pending record; on failure nothing changes |
| AchievementService.AchievementStore.UploadCertificate | src/services/achievementService.ts:65-86 | the file lands at `certificates/<student>/<id>_<name>` unless the upload fails; success exactly when upload and patch succeed on an existing record, and then only that record gains the certificate; a failed patch leaves the file in the bucket |
| AchievementService.AchievementStore.UpdateAchievementStatus | src/services/achievementService.ts:165-186 | succeeds exactly on an existing record when the write succeeds, replacing only that record by its reviewed version; no check of the previous status |
| AchievementService.AchievementStore.DeleteAchievement | src/services/achievementService.ts:189-202 | deletes the file only when a URL is given, and the record only when that step succeeded; a missing record is not an error |
| AchievementService.GetStudentAchievements | src/services/achievementService.ts:89-114 | the student's records and no others, each as often as stored, newest first; `[]` when the read fails |
| AchievementService.GetPendingAchievements | src/services/achievementService.ts:117-142 | the pending records and no others, newest first; `[]` when the read fails |
| AchievementService.GetAllAchievements | src/services/achievementService.ts:145-162 | a permutation of all records, newest first; `[]` when the read fails |
| AchievementService.PendingOfStudent | src/services/achievementService.ts:89-142 | every pending record in a student's list is also in the pending list |
| AchievementService.StudentCountOrderFree | src/services/achievementService.ts:89-114 | the size of a student's list does not depend on the order the store returns records in |
| CloudStorage.Bucket.constructor | src/services/achievementService.ts:69 | the bucket starts with no objects |
| CloudStorage.Bucket.Upload | src/services/achievementService.ts:70-71 | a successful upload stores the object at its path and returns that path's download URL; a failed one stores nothing |
| CloudStorage.Bucket.DeleteObject | src/services/achievementService.ts:193-196 | removes the object the URL names; a missing object or a failed call is an error and removes nothing |
| AdminService.NewCategory | src/services/adminService.ts:25-35 | a new category is active, has the fixed icon and colour, and the given name, slug, description and order |
| AdminService.CategoryStore.constructor | src/services/adminService.ts:5 | the collection starts empty |
| AdminService.CategoryStore.GetCategories | src/services/adminService.ts:7-20 | the stored categories in key order, or `[]` when the read fails |
| AdminService.CategoryStore.AddCategory | src/services/adminService.ts:23-40 | on success exactly one fresh id holding the new category is added; a failure changes nothing |
| AdminService.CategoryStore.UpdateCategory | src/services/adminService.ts:43-54 | only name, description and update time of an existing category change; a missing id or failed write changes nothing |
| AdminService.CategoryStore.DeleteCategory | src/services/adminService.ts:57-64 | only that id is removed, and only on success |
| AdminService.GetDashboardStats | src/services/adminService.ts:67-94 | each counter is the length of its own filter (`approved`, `pending`, `rejected` records; `student`, `faculty` users), the total is the number of records and the three status counts add up to it; all zero when a read fails |
| AdminService.DashboardOrderFree | src/services/adminService.ts:67-82 | the counters depend only on which documents the two reads return, not on their order |
| AdminService.ApprovalMovesCount | src/services/adminService.ts:77-79 | approving one pending record moves exactly one unit from the pending count to the approved count |
| NotificationService.ActionUrl | src/services/notificationService.ts:17 | the link is non-empty exactly when an achievement id is given, and then ends with that id |
| NotificationService.PriorityOf | src/services/notificationService.ts:21 | high priority exactly when the type contains `approved` |
| NotificationService.ApprovedIsCaseSensitive | src/services/notificationService.ts:21 | the test is case-sensitive: `APPROVED` gives normal priority |
| NotificationService.NewNotification | src/services/notificationService.ts:10-22 | a new notification is unread with no read time; missing related id and title become `''`; link and priority are derived as above |
| NotificationService.NotificationStore.constructor | src/services/notificationService.ts:5 | the collection starts empty |
| NotificationService.NotificationStore.CreateNotification | src/services/notificationService.ts:7-27 | on success exactly one fresh id holding the new notification is added; a failure changes nothing |
| NotificationService.NotificationStore.MarkAsRead | src/services/notificationService.ts:58-69 | only the read flag and read time of an existing notification change; a missing id or failed write changes nothing |
| NotificationService.NotificationStore.DeleteNotification | src/services/notificationService.ts:72-80 | only that id is removed, and only on success |
| NotificationService.GetUserNotifications | src/services/notificationService.ts:30-55 | exactly the user's notifications, newest first; `[]` when the read fails |
| NotificationService.GetUnreadCount | src/services/notificationService.ts:83-91 | never more than the user's notifications; 0 when the read fails |
| NotificationService.UnreadCountIsUsersUnread | src/services/notificationService.ts:83-91 | the count is the number of the user's unread notifications, whatever the read order |
| NotificationService.MarkingLowersCount | src/services/notificationService.ts:58-69 | marking one of the user's unread notifications as read lowers the unread count by exactly one |
| AuthService.Session.constructor | src/services/authService.ts:149-151 | nobody is signed in at first |
| AuthService.Session.SignOut | src/services/authService.ts:80 | afterwards nobody is signed in |
| AuthService.Directory.constructor | src/services/authService.ts:46 | the users collection starts empty |
| AuthService.ToUser | src/services/authService.ts:125-135 | id falls back to the uid, e-mail to `''`, name to the display name and then `User` (never empty), department to `''` with a set department kept; the role is passed through and missing timestamps become the read time |
| AuthService.GetUserProfile | src/services/authService.ts:111-146 | at most four reads; every read before the last missed; the loop stops early only on a read that did not miss; the profile is the last read's document, if it found one |
| AuthService.FoundWithinRetries | src/services/authService.ts:116-123 | a profile seen by any of the four reads after only misses is found |
| AuthService.FirstSeen | src/services/authService.ts:114-125 | the document found is one some read returned |
| AuthService.GetUserProfileIsFirstSeen | src/services/authService.ts:111-146 | the retry loop yields exactly the user of the first read that did not miss |
| AuthService.RegisteredDoc | src/services/authService.ts:28-41 | the registered profile holds the chosen role and department, is active, and has empty optional fields |
| AuthService.RegisteredProfileReadsBack | src/services/authService.ts:28-41 | reading a registered profile back gives the registered uid, e-mail, role and department |
| AuthService.RegisterError | src/services/authService.ts:58-62 | the rethrown error keeps a non-empty message and otherwise says `Registration failed` |
| AuthService.Register | src/services/authService.ts:17-63 | a refused account changes nothing; a created account is signed in; the profile is written under its uid only when the write succeeds, otherwise the error names the profile write |
| AuthService.LoginError | src/services/authService.ts:86-98 | the three provider codes get their fixed messages; every other error is rethrown unchanged |
| AuthService.LoginErrorIdempotent | src/services/authService.ts:86-98 | mapping an already mapped error changes nothing |
| AuthService.Login | src/services/authService.ts:66-99 | a refused password leaves the session alone; without a profile after the retries the user is signed out with the not-found error; otherwise the user stays signed in |
| AuthService.Logout | src/services/authService.ts:102-108 | nobody is signed in afterwards |
| AuthService.Touched | src/services/authService.ts:187-191 | the merge sets login and update time and changes no other field |
| AuthService.SignInWithGoogle | src/services/authService.ts:166-204 | succeeds exactly for an existing profile when reads and writes succeed, and then only its two times change; a missing profile signs the user out and writes nothing |
| AuthService.GoogleDoc | src/services/authService.ts:223-236 | the new profile takes the chosen role and department, the display name or `User`, and the photo and phone or `''` |
| AuthService.SignUpWithGoogle | src/services/authService.ts:207-256 | a missing profile is created with the chosen role and department; an existing one only gets its times refreshed; failures write nothing |
| AuthService.SignUpKeepsExistingRole | src/services/authService.ts:238-245 | signing up again never changes an existing profile's role or department |
| Types.ParseRole | src/types/index.ts:3-8 | a parsed role prints back as the text it was parsed from |
| Types.RoleRoundTrip | src/types/index.ts:3-8 | every role survives a trip through its stored text, so the four texts are distinct |
| Types.RoleStrings | src/types/index.ts:3-8 | exactly `student`, `faculty`, `admin` and `verification_team` name a role |
| Types.ParseStatus | src/types/index.ts:10-14 | a parsed status prints back as the text it was parsed from |
| Types.StatusRoundTrip | src/types/index.ts:10-14 | every status survives a trip through its stored text |
| Types.StatusStrings | src/types/index.ts:10-14 | exactly `pending`, `approved` and `rejected` name a status |
| FirebaseErrors.AuthRulesOf | src/utils/firebaseErrors.ts:15-57 | one `auth/<code>` rule per table entry, in table order |
| FirebaseErrors.FirstMatchWins | src/utils/firebaseErrors.ts:14-72 | among matching rules the first one tried decides the message |
| FirebaseErrors.NoMatchFallsThrough | src/utils/firebaseErrors.ts:14-75 | when no rule matches the chain falls through to the default |
| FirebaseErrors.FirstMatchAppend | src/utils/firebaseErrors.ts:14-72 | trying two rule lists in turn is trying their concatenation |
| FirebaseErrors.GetFirebaseErrorMessage | src/utils/firebaseErrors.ts:6-76 | without code and message the unexpected-error text; when no rule matches, the error's own message or the generic text |
| FirebaseErrors.IsNetworkError | src/utils/firebaseErrors.ts:78-84 | only an error carrying a message or a code can be a network error |
| FirebaseErrors.IsAuthError | src/utils/firebaseErrors.ts:86-89 | only an error carrying a code or a message can be an authentication error |
| FirebaseErrors.NetworkReadsMessageFirst | src/utils/firebaseErrors.ts:78-84 | when a message is present the code has no say in `isNetworkError` |
| FirebaseErrors.AuthReadsCodeFirst | src/utils/firebaseErrors.ts:86-89 | when a code is present the message has no say in `isAuthError` |
| FirebaseErrors.MessageOfFirstMatchingRule | src/utils/firebaseErrors.ts:6-72 | an error whose text matches a rule of the chain, and no earlier one, gets that rule's message |
| FirebaseErrors.ShouldRetry | src/utils/firebaseErrors.ts:91-94 | every network error is retried; otherwise exactly the unavailable and deadline-exceeded codes are |
| FirebaseErrors.AuthPatternsMentionAuth | src/utils/firebaseErrors.ts:15-57 | every authentication pattern contains `auth/` |
| FirebaseErrors.NonAuthSkipsAuthRules | src/utils/firebaseErrors.ts:86-89 | an error `isAuthError` rejects never gets an authentication message |
| FirebaseErrors.AuthRuleAt | src/utils/firebaseErrors.ts:15-57 | the chain tries the authentication rules first, in table order |
| FirebaseErrors.AuthNetworkGetsSpecificMessage | src/utils/firebaseErrors.ts:27-29 | `auth/network-request-failed` gets its own message, not the generic network one |
| FirebaseErrors.NothingToReadIsUnexpected | src/utils/firebaseErrors.ts:8-12 | with no code and no message the text is the unexpected-error one, and the error is neither an auth nor a network error |
| FirebaseErrors.ReadOrderDiffers | src/utils/firebaseErrors.ts:78-93 | the classifiers read different fields: one error can be both a network and an auth error |
| AuthForms.AtIndex | src/components/AuthForms.tsx:26 | the position found holds the first `@` of the text |
| AuthForms.ValidEmailMatches | src/components/AuthForms.tsx:26 | what the test accepts has the `local@d1.d2` split the pattern describes |
| AuthForms.PatternIsValidEmail | src/components/AuthForms.tsx:26 | every `local@d1.d2` split is accepted |
| AuthForms.ValidEmailIsPattern | src/components/AuthForms.tsx:26 | the test accepts exactly the texts the pattern matches |
| AuthForms.AcceptedEmailShape | src/components/AuthForms.tsx:26 | an accepted e-mail has no whitespace and exactly one `@` |
| AuthForms.ValidateForm | src/components/AuthForms.tsx:21-38 | an e-mail error exactly when the pattern fails (required when empty), a password error exactly when it is shorter than 6 (required when empty); valid exactly when there is no error |
| AuthForms.EmptyEmailInvalid | src/components/AuthForms.tsx:24-28 | the empty e-mail fails the pattern too |
| AuthForms.HandleSubmit | src/components/AuthForms.tsx:40-65 | an invalid form is refused with a non-empty error object and never calls login; otherwise a failed password check fails with login's error message and leaves the session as it was, and a passed one signs the user in exactly when a profile is found, else fails with the account-not-found text and leaves no one signed in |
| Layout.MenuItems | src/components/Layout.tsx:85-114 | each menu has distinct targets; the menu is non-empty exactly for the four known roles |
| Layout.MenuPerRole | src/components/Layout.tsx:87-110 | students and faculty see two links, the verification team three, admins five; the first is Dashboard, at `/verification/dashboard` for the verification team |
| Layout.CategoryPageIsAdminOnly | src/components/Layout.tsx:103-110 | only the admin menu links to the category page |
| CategoriesPage.Collapse | src/app/admin/categories/page.tsx:39 | the collapsed text holds no whitespace |
| CategoriesPage.CollapseKeepsLower | src/app/admin/categories/page.tsx:39 | replacing whitespace runs by `-` keeps a lowercase text lowercase |
| CategoriesPage.Slug | src/app/admin/categories/page.tsx:39 | a slug has no whitespace and no capital letter |
| CategoriesPage.CollapseNoSpace | src/app/admin/categories/page.tsx:39 | a text without whitespace is its own collapse |
| CategoriesPage.CollapseRun | src/app/admin/categories/page.tsx:39 | a word, then a whitespace run, then the rest, collapses to the word, one `-`, and the collapsed rest |
| CategoriesPage.TrimStartRun | src/app/admin/categories/page.tsx:39 | a whitespace run before a non-blank start is swallowed whole |
| CategoriesPage.SlugIdempotent | src/app/admin/categories/page.tsx:39 | the slug of a slug is the slug itself |
| CategoriesPage.Page.constructor | src/app/admin/categories/page.tsx:13-16 | the page opens with no categories and empty inputs |
| CategoriesPage.Page.FetchCategories | src/app/admin/categories/page.tsx:25-32 | the list is the collection's listing, or empty when the read fails |
| CategoriesPage.Page.HandleAddCategory | src/app/admin/categories/page.tsx:34-50 | a failed add changes nothing; otherwise the new category carries the slug of its name and the current list length as order, the list is re-read and the inputs are cleared |
| CategoriesPage.Page.HandleDeleteCategory | src/app/admin/categories/page.tsx:52-61 | without confirmation nothing happens; a successful delete removes the document and filters that id out of the local list; a failed one changes nothing |
| CategoriesPage.LocalDeleteRemovesOnlyThatId | src/app/admin/categories/page.tsx:56 | the filtered list holds exactly the categories with another id, in their order |
| Views.ByStatus | src/components/FacultyVerificationComponent.tsx:50-53 | the `all` tab keeps the list; a status tab keeps exactly the records with that status, in order |
| Views.Search | src/components/FacultyVerificationComponent.tsx:76-83 | a blank term keeps the list; otherwise exactly the records the search accepts, in order |
| Views.BySubmission | src/components/FacultyVerificationComponent.tsx:86-90 | a permutation of the list, ordered by submission time newest or oldest first |
| Views.StatusAndSearchCommute | src/components/VerifiedAchievementsComponent.tsx:66-93 | tab then search gives the same list as search then tab |
| Views.MentionsIgnoresCase | src/components/FacultyVerificationComponent.tsx:79-82 | the search term's case does not change the outcome |
| FacultyVerification.LoadList | src/components/FacultyVerificationComponent.tsx:32-60 | a verifier with a department gets exactly the records where either department field equals it and the tab matches; without one, every record the tab accepts; order kept |
| FacultyVerification.Visible | src/components/FacultyVerificationComponent.tsx:72-93 | the records matching name, e-mail or department (all for a blank term), sorted by submission time |
| FacultyVerification.Counts | src/components/FacultyVerificationComponent.tsx:254-257 | each tab counts the records of its status, and the three add up to the total |
| FacultyVerification.TabCountIsTabLength | src/components/FacultyVerificationComponent.tsx:254-257 | a tab's number is the length of the list that tab shows |
| FacultyVerification.GateWithoutDepartments | src/components/FacultyVerificationComponent.tsx:99 | with a student department the gate opens exactly for that department; a verifier without department passes a record without any |
| FacultyVerification.WrittenRemarks | src/components/FacultyVerificationComponent.tsx:106-113 | approval writes the remarks as typed; rejection writes them, or `Rejected by faculty` when empty |
| FacultyVerification.DecisionNotification | src/components/FacultyVerificationComponent.tsx:116-121 | the notification goes to the student, with `approval`/`rejection` as title and the record id as message, no link, unread |
| FacultyVerification.Notify | src/components/FacultyVerificationComponent.tsx:116-121 | the decision notification is added under the next id exactly when the call succeeds |
| FacultyVerification.Screen.constructor | src/components/FacultyVerificationComponent.tsx:17-25 | an empty list on the given tab, nothing selected, no remarks, no toasts |
| FacultyVerification.Screen.Decide | src/components/FacultyVerificationComponent.tsx:95-173 | no selection or user: nothing; closed gate: one refusal toast and nothing else changes; otherwise the review is written, then the notification; only when both succeed is the selection cleared and the list reloaded, and on a failure the selection, remarks and list stay and one error toast is added |
| FacultyVerification.Screen.Finish | src/components/FacultyVerificationComponent.tsx:123-126 | the success toast, no selection, empty remarks, the reloaded list for the current tab |
| FacultyVerification.ApprovalIsNormalPriority | src/components/FacultyVerificationComponent.tsx:118 | an approval message in capitals does not make the notification high priority |
| VerifiedAchievements.LoadList | src/components/VerifiedAchievementsComponent.tsx:29-55 | a record is kept exactly when it is decided and its student department is unset, the verifier has none, or the two match; kept records stay in read order |
| VerifiedAchievements.Visible | src/components/VerifiedAchievementsComponent.tsx:66-93 | exactly the records passing the tab and the search on name, e-mail, department or title, sorted by submission time |
| VerifiedAchievements.StatusColor | src/components/VerifiedAchievementsComponent.tsx:95-101 | one of three colours, grey for anything but approved or rejected |
| VerifiedAchievements.StatusIcon | src/components/VerifiedAchievementsComponent.tsx:103-109 | anything but approved or rejected gets the default icon |
| VerifiedAchievements.StatusStylesDistinct | src/components/VerifiedAchievementsComponent.tsx:95-109 | approved and rejected differ in colour and icon; pending gets the default colour |
| FacultyViewStudents.StatsOf | src/components/FacultyViewStudentsComponent.tsx:82-87 | the counters count each status and add up to the total |
| FacultyViewStudents.MergeOne | src/components/FacultyViewStudentsComponent.tsx:76-89 | a student's records are exactly those with their id or e-mail, in order, with their counters |
| FacultyViewStudents.Merge | src/components/FacultyViewStudentsComponent.tsx:76-89 | one entry per student, in order |
| FacultyViewStudents.ByDepartment | src/components/FacultyViewStudentsComponent.tsx:103-105 | `All` keeps everyone; otherwise exactly the students of that group, in order |
| FacultyViewStudents.BySearch | src/components/FacultyViewStudentsComponent.tsx:108-115 | a blank term keeps everyone; otherwise exactly the students whose name, e-mail or uid mentions it |
| FacultyViewStudents.ByRecords | src/components/FacultyViewStudentsComponent.tsx:123-132 | unless both selections are `All`, exactly the students with a record matching both |
| FacultyViewStudents.ApplyFilters | src/components/FacultyViewStudentsComponent.tsx:99-135 | a student is kept iff all three filters accept them; order kept |
| FacultyViewStudents.NoRecordsOnlyUnfiltered | src/components/FacultyViewStudentsComponent.tsx:123-132 | a student without records is kept iff both record selections are `All` |
| FacultyViewStudents.ModalList | src/components/FacultyViewStudentsComponent.tsx:315-317 | exactly the student's records matching both selections, in order |
| FacultyViewStudents.ModalUnfiltered | src/components/FacultyViewStudentsComponent.tsx:315-317 | both selections at `All` list every record |
| FacultyViewStudents.KeptStudentsShowRecords | src/components/FacultyViewStudentsComponent.tsx:123-132 | a student passes the record filters iff the record list under the same selections is non-empty |
| FacultyViewStudents.GroupIsFilter | src/components/FacultyViewStudentsComponent.tsx:138-143 | each group is the students with that key, in order, and the groups are exactly the keys that occur |
| FacultyViewStudents.StudentInOneGroup | src/components/FacultyViewStudentsComponent.tsx:138-143 | every student is in their own group and in no other |
| FacultyViewStudents.InsertUnique | src/components/FacultyViewStudentsComponent.tsx:146 | inserting into a strictly increasing list keeps it strictly increasing and adds exactly that value |
| FacultyViewStudents.Departments | src/components/FacultyViewStudentsComponent.tsx:146 | the departments offered are strictly increasing and are exactly the keys of the students |
| FacultyViewStudents.DepartmentsAreGroups | src/components/FacultyViewStudentsComponent.tsx:138-146 | for one list of students, the departments offered are exactly the keys of its grouping |
| FacultyViewStudents.GroupKeys | src/components/FacultyViewStudentsComponent.tsx:138-143 | the group keys are exactly the keys of the students grouped |
| FacultyViewStudents.GroupsOfSomeAreOffered | src/components/FacultyViewStudentsComponent.tsx:138-146 | grouping some of the students gives only departments offered for all of them |
| FacultyViewStudents.ShownGroupsAreOffered | src/components/FacultyViewStudentsComponent.tsx:138-146 | the groups shown (of the filtered students) are among the departments offered (of all students) |
| FacultyViewStudents.UnfilteredGroupsAreOffered | src/components/FacultyViewStudentsComponent.tsx:138-146 | with every filter at `All` and a blank search, the groups shown are exactly the departments offered |
| FacultyViewStudents.DepartmentsDistinct | src/components/FacultyViewStudentsComponent.tsx:146 | no department is offered twice |
| Submission.TrimInside | src/components/StudentUploadComponent.tsx:152 | trimming keeps only characters of the text |
| Submission.TrimFixed | src/components/StudentUploadComponent.tsx:152 | an already trimmed text is unchanged |
| Submission.TrimEach | src/components/StudentUploadComponent.tsx:152 | one piece per piece, the i-th being the trim of the i-th |
| Submission.TrimEachFixed | src/components/StudentUploadComponent.tsx:152 | pieces already trimmed are unchanged |
| Submission.TagsArePieces | src/components/StudentUploadComponent.tsx:152 | a non-empty field has one tag per comma-separated piece, the i-th being the trim of the i-th piece |
| Submission.ParseTags | src/components/StudentUploadComponent.tsx:152 | an empty field gives no tags; otherwise one more tag than there are commas, each trimmed and comma-free |
| Submission.TagsJoinBack | src/components/StudentUploadComponent.tsx:152 | joining the tags of a field of trimmed pieces with commas gives the field back |
| Submission.SimulateProgress | src/components/StudentUploadComponent.tsx:155-159 | the bar shows 0, 10, …, 100, increasing, eleven values |
| Submission.Written | src/components/StudentSubmitCertificateComponent.tsx:138-159 | a failed create adds nothing; otherwise the new record is added under its id, with the certificate once the upload went through, and every other document stays as it was |
| Submission.Names | src/components/StudentUploadComponent.tsx:71 | the names of the categories, one per category, in order |
| Submission.FallbackIsDefaultNames | src/components/StudentUploadComponent.tsx:47-88 | the twelve fallback names are the names of the twelve defaults, in order |
| Submission.SeedCategory | src/components/StudentUploadComponent.tsx:62-64 | a seeded category has the seed's name and slug and order 0 |
| Submission.Seeded | src/components/StudentUploadComponent.tsx:62-64 | seeding adds documents only under the next ids |
| Submission.FirstFailure | src/components/StudentUploadComponent.tsx:62-64 | the index of the first add that throws, or the count when none does |
| Submission.FirstFailureAt | src/components/StudentUploadComponent.tsx:62-64 | a throw at `i` after none before puts the first failure at `i` |
| Submission.SeedDefaults | src/components/StudentUploadComponent.tsx:62-64 | the defaults up to the first failing add are stored under consecutive ids; it reports failure iff one failed |
| Submission.LoadCategories | src/components/StudentUploadComponent.tsx:40-92 | a non-empty first read shows its names and writes nothing; an empty one seeds, then shows the fallback names if an add failed, else the re-read names |
| Submission.SeededNames | src/components/StudentUploadComponent.tsx:62-71 | after seeding `n` defaults into an empty collection the listing names are the first `n` seed names |
| Submission.SeedingShowsFallbackNames | src/components/StudentUploadComponent.tsx:62-90 | a full seeding, listed in creation order, shows exactly the fallback names |
| Submission.NamesPermutation | src/components/StudentUploadComponent.tsx:71 | the same categories in another order give the same names, each as often |
| Submission.SeedingShowsFallbackNamesAnyOrder | src/components/StudentUploadComponent.tsx:62-90 | whatever order the store lists the seeded categories in, the names shown are the fallback names, each as often |
| FacultyUpload.Staged | src/components/FacultyAchievementUploadComponent.tsx:117-146 | the record carries the certificate once uploaded and the faculty approval once approved, and neither otherwise |
| FacultyUpload.Filed | src/components/FacultyAchievementUploadComponent.tsx:116-127 | a pending, unreviewed, uncertified record of the student named in the form, in the faculty member's department |
| FacultyUpload.FailedApprovalStaysPending | src/components/FacultyAchievementUploadComponent.tsx:137-146 | a record whose approval failed stays pending and unreviewed |
| FacultyUpload.Screen.constructor | src/components/FacultyAchievementUploadComponent.tsx:18-36 | a blank form, no file, no progress, no toasts |
| FacultyUpload.Screen.LoadCategories | src/components/FacultyAchievementUploadComponent.tsx:42-74 | a non-empty first read shows its names and writes nothing; an empty one adds the twelve defaults up to the first failed add, then shows the fixed names if an add failed, else the re-read names |
| FacultyUpload.Screen.SelectFile | src/components/FacultyAchievementUploadComponent.tsx:84-98 | a picked file replaces the selection with a toast naming it; no file changes nothing |
| FacultyUpload.Screen.Create | src/components/FacultyAchievementUploadComponent.tsx:116-133 | the filed record under the next id and the bar at 100, or no write |
| FacultyUpload.Screen.Finish | src/components/FacultyAchievementUploadComponent.tsx:156-172 | the success toast and the cleared form |
| FacultyUpload.Screen.Record | src/components/FacultyAchievementUploadComponent.tsx:115-146 | create, upload, approve in order with the faculty member's department; the first failure stops the rest and nothing is undone |
| FacultyUpload.Screen.Attach | src/components/FacultyAchievementUploadComponent.tsx:129-146 | on the record just created, the certificate upload and then the approval; a failed upload skips the approval, and nothing is undone |
| FacultyUpload.Screen.HandleSubmit | src/components/FacultyAchievementUploadComponent.tsx:100-180 | a refused submit writes nothing and shows the first refusal; otherwise the writes of Record and the student's notification, and the form is cleared only when all succeeded |
| StudentSubmit.StudentName | src/components/StudentSubmitCertificateComponent.tsx:137 | the name written is never empty and is the user's name when set |
| StudentSubmit.NewSubmission | src/components/StudentSubmitCertificateComponent.tsx:137-149 | a pending, unreviewed, uncertified record of the student with their department |
| StudentSubmit.Screen.constructor | src/components/StudentSubmitCertificateComponent.tsx:20-36 | a blank form, no file, no progress, no submissions, no toasts |
| StudentSubmit.Screen.LoadCategories | src/components/StudentSubmitCertificateComponent.tsx:63-92 | a non-empty first read shows its names and writes nothing; an empty one adds the twelve defaults up to the first failed add, then shows the fixed names if an add failed, else the re-read names |
| StudentSubmit.Screen.LoadSubmitted | src/components/StudentSubmitCertificateComponent.tsx:49-61 | the list is the student's records, newest first, or empty on a failed read |
| StudentSubmit.Screen.Create | src/components/StudentSubmitCertificateComponent.tsx:134-155 | the pending record under the next id and the bar at 100 after the submitting toast, or no write and the error toast |
| StudentSubmit.Screen.Attach | src/components/StudentSubmitCertificateComponent.tsx:158-159 | the blob under the student's certificate path, and the record's certificate fields only when the upload and the update both succeed |
| StudentSubmit.Screen.Finish | src/components/StudentSubmitCertificateComponent.tsx:162-178 | the success toast, the reloaded list of the student's records, the cleared form |
| StudentSubmit.Screen.Record | src/components/StudentSubmitCertificateComponent.tsx:133-159 | create, progress, upload in order; the first failure stops the rest with its toast and nothing is undone |
| StudentSubmit.Screen.HandleSubmit | src/components/StudentSubmitCertificateComponent.tsx:118-191 | a refusal writes nothing and shows its message; otherwise Record's writes with the `Submitting`/`Uploading file` toasts in order; on success the list is reloaded and the form cleared, on a failure the progress is as far as it got and one error toast follows |
| StudentSubmit.NewSubmissionIsListed | src/components/StudentSubmitCertificateComponent.tsx:164-165 | a stored record of the student is in the reloaded list when the read succeeds |
| StudentUpload.LimitIsInclusive | src/components/StudentUploadComponent.tsx:105-108 | exactly 10 MB is accepted and one byte more is refused |
| StudentUpload.Refusal | src/components/StudentUploadComponent.tsx:123-136 | no refusal iff user, file, title, category and date are present; the user is checked first, then the file |
| StudentUpload.NewUpload | src/components/StudentUploadComponent.tsx:142-153 | a pending, unreviewed, uncertified record of the user, with the parsed tags |
| StudentUpload.Screen.constructor | src/components/StudentUploadComponent.tsx:20-34 | a blank form, no file, no progress, no categories, no toasts |
| StudentUpload.Screen.LoadCategories | src/components/StudentUploadComponent.tsx:40-92 | a non-empty first read shows its names and writes nothing; an empty one adds the defaults up to the first failed add and shows the fixed names (with the `Using default categories` toast) if an add failed, else the re-read names |
| StudentUpload.Screen.HandleFileChange | src/components/StudentUploadComponent.tsx:102-118 | a file over 10 MB is refused with a toast and the selection stays; an accepted file replaces it |
| StudentUpload.Screen.Create | src/components/StudentUploadComponent.tsx:142-159 | the pending record under the next id and the bar at 100, or no write |
| StudentUpload.Screen.Record | src/components/StudentUploadComponent.tsx:140-162 | create the pending record, run the bar to 100, upload the certificate; succeeds exactly when all three do, the first failure stops the rest, and nothing written is undone |
| StudentUpload.Screen.Finish | src/components/StudentUploadComponent.tsx:166-179 | the success toast and the cleared form |
| StudentUpload.Screen.HandleSubmit | src/components/StudentUploadComponent.tsx:120-193 | a refusal writes nothing and shows its message; otherwise create, progress, upload, with the first failure's message as the one toast; only full success clears the form; the record stays pending |
| AchievementComponents.NewEntry | src/components/AchievementComponents.tsx:83-94 | a pending, unreviewed, uncertified record of the user with no tags and department `user.department` or empty |
| AchievementComponents.Expire | src/components/AchievementComponents.tsx:133 | the oldest toast leaves and the rest keep their order |
| AchievementComponents.ExpireTimes | src/components/AchievementComponents.tsx:133 | `n` expiries shorten the queue by `n`, down to empty |
| AchievementComponents.OldestLeaveFirst | src/components/AchievementComponents.tsx:131-134 | after as many expiries as older toasts, exactly the newer ones remain |
| AchievementComponents.AchievementForm.constructor | src/components/AchievementComponents.tsx:11-33 | empty fields, no certificate, the four fixed categories, no errors, no toasts |
| AchievementComponents.AchievementForm.AddToast | src/components/AchievementComponents.tsx:131-132 | the message joins the back of the queue; nothing else changes |
| AchievementComponents.AchievementForm.ExpireToast | src/components/AchievementComponents.tsx:133 | the timer removes the oldest toast; every form field, the errors, the flags and the category list stay |
| AchievementComponents.AchievementForm.ValidateForm | src/components/AchievementComponents.tsx:35-47 | valid iff no errors iff the form is complete; each field's error is present exactly when that field is blank, with its message |
| AchievementComponents.AchievementForm.CertificateChange | src/components/AchievementComponents.tsx:49-65 | a picked file becomes the certificate, clears its error and adds one toast; no file changes nothing; the text fields, flags and category list stay |
| AchievementComponents.AchievementForm.Create | src/components/AchievementComponents.tsx:81-94 | the uploading toast, then the record from the form's fields under the next id when the date parses and the call succeeds, or no write |
| AchievementComponents.AchievementForm.Record | src/components/AchievementComponents.tsx:80-106 | create, upload when there is a certificate, notify; the first failure stops the rest and nothing is undone |
| AchievementComponents.SubmittedNotification | src/components/AchievementComponents.tsx:101-106 | the notification goes to the submitting user with the submitted type, title and message, unread, and at normal priority |
| AchievementComponents.NotifySubmitted | src/components/AchievementComponents.tsx:101-106 | the submitted notification is added under the next id exactly when the call succeeds |
| AchievementComponents.AchievementForm.HandleSubmit | src/components/AchievementComponents.tsx:67-129 | no user: nothing; invalid form: errors and one toast, no writes; otherwise Record's writes, success iff every write went through, and a failure's message as the last toast and the error |
| AchievementComponents.AchievementForm.ResetAfterSuccess | src/components/AchievementComponents.tsx:112-121 | every field and the certificate are cleared |
| AchievementComponents.ApprovedCertificateShown | src/components/AchievementComponents.tsx:384 | an approved record with an attached certificate shows the certificate panel and, with a verifier name, the verifier line |
| AchievementComponents.PdfBySuffix | src/components/AchievementComponents.tsx:395 | a file is a PDF iff its last four characters, lowercased, are `.pdf` |
| AchievementComponents.UpperCasePdf | src/components/AchievementComponents.tsx:395 | upper-case extensions count as PDF |
| AchievementComponents.PdfOnlyAtEnd | src/components/AchievementComponents.tsx:395 | `.pdf` elsewhere in the name, or a name shorter than the extension, is not a PDF |
| AchievementComponents.UnreviewedHasNoVerifierLine | src/components/AchievementComponents.tsx:444 | an unreviewed record shows no verifier line |
| AchievementComponents.StatusColor | src/components/AchievementComponents.tsx:322-333 | one of four colours, grey iff the text is not a status |
| AchievementComponents.StatusIcon | src/components/AchievementComponents.tsx:335-346 | one of four icons, the bullet iff the text is not a status |
| AchievementComponents.StatusStylesDistinct | src/components/AchievementComponents.tsx:322-346 | two statuses share a colour, and share an icon, only when they are equal |
| Text.Trim | src/components/AchievementComponents.tsx:38 | the trimmed text neither starts nor ends with whitespace |
| Text.TrimIsSlice | src/components/AchievementComponents.tsx:38 | the trimmed text is a slice of the text with only whitespace cut from either end |
| Text.TrimEmptyIffBlank | src/components/AchievementComponents.tsx:38-41 | `!s.trim()` holds exactly for a text made only of whitespace |
| Text.ToLower | src/components/FacultyVerificationComponent.tsx:79-82 | same length, each character lowered |
| Text.ToLowerIdempotent | src/components/FacultyVerificationComponent.tsx:79-82 | lowering twice is lowering once |
| Text.SplitCount | src/components/StudentUploadComponent.tsx:152 | `split(',')` gives one piece more than there are commas |
| Text.SplitPiecesFree | src/components/StudentUploadComponent.tsx:152 | no piece holds the separator |
| Text.JoinSplit | src/components/StudentUploadComponent.tsx:152 | joining the pieces with the separator gives the text back |

## Left out

- Firebase itself (document writes, queries, blob uploads, the auth provider, popups): replaced by the store classes and by outcome parameters.
- Firestore's random document ids: ids are consecutive naturals, and a listing without `orderBy` comes back in creation order. In Firestore such a listing comes back in document-id order, which for random ids is arbitrary. The dashboard counts do not depend on that order (`AdminService.DashboardOrderFree`).
- Submission.SeededNames: states the names in creation order, which is the model's listing order only; in Firestore the seeded names come back in an arbitrary order.
- Submission.SeedingShowsFallbackNames: the same; for every listing order, `Submission.SeedingShowsFallbackNamesAnyOrder` states what holds: the fallback names, each as often.
- `CloudStorage.DownloadUrl`: `getDownloadURL` hands out a tokenised https URL; the model uses the object path itself as its URL, so a reference made from the URL reaches the object uploaded at that path.
- `FacultyViewStudents.Group`: the source groups into a plain object (`{}`), where a department named like an inherited property (`constructor`, `toString`) would find that property instead of an empty group. The model groups into a map and has no such keys.
- Timers and concurrency: toast expiry delays, the 1.5 s reset delay, the 100 ms progress sleeps and the polling pages are not modelled. The form's toast expiry is a separate `ExpireToast` step. The delayed `Pending faculty review` toast of the student submit screen is not modelled.
- Toast queues of the other screens are append-only sequences; their removal by toast id after a delay is a timer and is not modelled.
- Tie order of the date sorts: only the permutation and the order by `submittedAt` are stated, not where equal timestamps end up.
- String semantics: `toLowerCase`, `trim` and `\s` act on ASCII only. Strings are sequences of code points, not UTF-16 units. No locale rules apply.
- Floating point and display: the megabyte figure in the certificate toast (`toFixed`), `toLocaleDateString`, image previews (FileReader), JSX and CSS.
- `new Date(text)`: date parsing is not modelled; the parsed value is a parameter.
- Router pushes and redirects, the `onSuccess` callback of the form, and the `loading` flags.
- `authService.getUsersByRole` and `getCurrentUser`: no modelled screen calls them. `setPersistence` is not modelled; its failure would surface like any other auth failure.
- The profile reads of the student directory (`userService`): `userService` is not part of this model, and the student list is an input of `FacultyViewStudents.Merge`.
- The register form's submit handler: only the login form is modelled.
- `CategoriesPage.Slug`: not proved equal to the slugs written out in the twelve default categories. They agree by inspection only.
- `VerifiedAchievements.StatusIcon`: the icon texts are kept as the file spells them (mis-encoded emoji), and the contract only fixes the default.
- Error toasts: when a backend call fails, the model shows one toast whose text is the failure's message. The contracts state where that toast sits and how many toasts there are, not its wording.
- Notification call sites are modelled as written: the review screen and the faculty upload pass their texts to `createNotification` in a different order from its parameters. The sixth argument the review screen gives `updateAchievementStatus` is ignored, as the service ignores it.
- `AchievementComponents.AchievementForm.HandleSubmit`: a valid form always has a certificate, so the source's `if (certificate)` branch is always taken. `Record` states both branches.
