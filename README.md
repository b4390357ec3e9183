# Course scheduler, wsh shell and Minesweeper: a verified Dafny model

This project models the deterministic core of three small programs from one repository and proves properties about it.

**The Django course-scheduling site** (`scheduler_app`). The database is a value `Db` that holds four maps:

- users by lower-case e-mail;
- courses by upper-case name;
- sections by (course, number);
- skills by name.

The `Store` class (module `Models`) keeps those maps as fields. Each of its methods ensures that the new state equals a pure function of the old one: `AfterCreateUser`, `AfterCreateCourse`, `AfterCreateSection`, `AfterCreateSkill`, `AfterDeleteCourse` and `AfterDeleteUser`.

The invariant `Invariant(db)` says that keys agree with the records they hold, that e-mails are valid and lower-case, and that every reference points at an existing row. Every factory, every delete and every view preserves it.

The views `add_course`, `delete_course`, `add_user`, `delete_user`, `user_info` and `update_course` are modelled twice:

- as response functions (`...Response`) from the database, the caller, the method and the POST map to a `Response`, which holds the new database, the flashed messages and the page;
- as methods on a `Store` that are proved to produce that response.

`update_course` is the best-effort batch of steps, each a function from a `Batch` (database, messages so far, acting account type) to a `Step`. A step either continues or stops with an uncaught exception, shown as a server error. The home page's day lists are a pure function. The e-mail regular expression is a computable predicate that is proved equivalent to a direct reading of the pattern under `re.fullmatch`. `datetime.strptime(_, '%H:%M')` is modelled as a minutes-of-day parser.

**The `wsh` shell** (`shell/wsh.c`):

- The history list is a sequence, newest first, together with its capacity.
- The shell-variable list is a sequence of `Var` records in insertion order.
- Both live in the `Shell` class.
- The argument vector is an `array<Option<string>>`, where `None` is the terminating `NULL`.
- `compact_argv`, `substitute_variables` and `count_pipes` work on that array in place, as the C does.
- The environment is a map.

**Minesweeper** (`Minesweap/MineSweapPart.java`):

- The `Game` class keeps the 16×16 `mineGrid` as an `array2<int>`, mirrored by a ghost value `cells`.
- `setMines` updates the grid in place, one neighbour at a time. The random coordinates are a parameter.
- The flag and unflag branches of the click listener update `guessedMinesLeft`, `actualMinesLeft` and `running`. These counters are specified by the functions `Flag` and `Unflag` over a `Counters` value.

Points where the handlers behave differently from what their messages and names suggest, and which the model reproduces:

- **Who may edit a course.** `update_course` refuses only TAs and Instructors outside the course (views.py:189-196). An account of any other type passes (`CourseUpdate.MayEdit`).
- **Who the assignment steps check.** The assignment steps test the account type of the last user added or removed, not the caller's, because `user` is reassigned at views.py:204 and :209. So a Supervisor who adds or removes a TA in the same request has the assignment fields silently ignored (`CourseUpdate.TaActorSkipsAssignments`).
- **Section validation errors.** An empty section number and an invalid day pattern raise `TypeError` in `create_section`. `update_course` only catches `ValueError`, so these become server errors rather than warnings.
- **Unknown names in `update_course`.** An unknown e-mail or section number in the `add_user`, `remove_user`, `remove_section` or `to_sec_*` fields indexes an empty query set. That is modelled as a crash outcome (`IndexError`), keeping the rows already saved, as autocommit does.

## Model

| member | source | states |
|---|---|---|
| PyBuiltins.Upper | scheduler_site-main/scheduler_app/models.py:65 | `str.upper` on ASCII: same length, each character upper-cased, no lower-case letter remains |
| PyBuiltins.Lower | scheduler_site-main/scheduler_app/models.py:12 | `str.lower` on ASCII: same length, each character lower-cased, no upper-case letter remains |
| PyBuiltins.UpperAppend | scheduler_site-main/scheduler_app/models.py:62-65 | upper-casing `dpt + num` is upper-casing each part and concatenating |
| PyBuiltins.LowerIdempotent | scheduler_site-main/scheduler_app/models.py:12 | lowering twice is lowering once, so a stored e-mail is already in its normal form |
| PyBuiltins.Strip | scheduler_site-main/scheduler_app/views.py:129-133 | `str.strip`: the result is a contiguous slice with only whitespace cut on both sides, and it neither starts nor ends with whitespace |
| PyTime.ParseClock | scheduler_site-main/scheduler_app/views.py:234-235 | `strptime(_, '%H:%M')` succeeds exactly when the clock pattern, with `\d` read as an ASCII digit, matches the whole string, and then yields a minute of the day below 1440 |
| PyTime.FormatClock | scheduler_site-main/scheduler_app/views.py:234-235 | a minute of the day prints as five characters `HH:MM` |
| PyTime.ParseFormatClock | scheduler_site-main/scheduler_app/views.py:234-235 | parsing the printed `HH:MM` of any minute of the day gives that minute back |
| PyTime.ParseClockOneDigitHour | scheduler_site-main/scheduler_app/views.py:234 | `%H` accepts a one-digit hour: "9:05" is 545 minutes |
| PyTime.ParseClockRejectsHour24 | scheduler_site-main/scheduler_app/views.py:234 | hour 24 fails with the "does not match format" message that becomes the warning |
| PyTime.ParseClockRejectsMinute60 | scheduler_site-main/scheduler_app/views.py:234 | "12:60" fails with "unconverted data remains: 0", since `%M` takes only "6" |
| Validators.FirstIndex | scheduler_site-main/scheduler_app/validators.py:4 | finds the first occurrence of a character, or reports that there is none |
| Validators.LastIndex | scheduler_site-main/scheduler_app/validators.py:4 | finds the last occurrence of a character, or reports that there is none |
| Validators.IsValidEmailIffFullMatch | scheduler_site-main/scheduler_app/validators.py:4-8 | the computable check accepts exactly the strings the pattern fully matches |
| Validators.ValidateEmail | scheduler_site-main/scheduler_app/validators.py:7-12 | returns normally exactly on a full match, and otherwise raises ValidationError "<email> is not a valid email address" |
| Validators.ExactlyOneAt | scheduler_site-main/scheduler_app/validators.py:4 | every accepted address holds exactly one '@' |
| Validators.AfterAtShape | scheduler_site-main/scheduler_app/validators.py:4 | after the '@' comes a '.' followed by at least two characters from letters and '\|', ending in a letter |
| Validators.OnlyPatternCharacters | scheduler_site-main/scheduler_app/validators.py:4 | every character of an accepted address comes from the pattern's classes or is the '@'; a space never is |
| Validators.BoundaryAnchors | scheduler_site-main/scheduler_app/validators.py:4-8 | under fullmatch the `\b` anchors force a word character first and a letter last |
| Validators.LowerKeepsMatch | scheduler_site-main/scheduler_app/models.py:10-12 | lower-casing an accepted address keeps it accepted, so the stored e-mail is valid too |
| Validators.AcceptsTestAddress | scheduler_site-main/scheduler_app/validators.py:4-8 | "testemail@test.com" is accepted |
| Validators.RefusesBareName | scheduler_site-main/scheduler_app/validators.py:4-8 | "testemail" is refused |
| Models.EmptyDbInvariant | scheduler_site-main/scheduler_app/models.py:36-170 | the empty database satisfies the uniqueness and reference invariant |
| Models.AfterCreateUser | scheduler_site-main/scheduler_app/models.py:9-36 | the format is validated before lower-casing; an invalid e-mail raises ValidationError and a taken lower-cased e-mail raises IntegrityError, both storing nothing; otherwise the user is stored under the lower-cased e-mail with blank contact data |
| Models.CreateUserKeepsInvariant | scheduler_site-main/scheduler_app/models.py:9-19 | creating a user keeps the invariant |
| Models.AddUserKeepsInvariant | scheduler_site-main/scheduler_app/models.py:15-18 | saving a valid lower-case user keeps the invariant |
| Models.CreateUserCaseInsensitive | scheduler_site-main/scheduler_app/models.py:12-36 | a second e-mail that differs only in case raises IntegrityError |
| Models.AfterCreateCourse | scheduler_site-main/scheduler_app/models.py:61-73 | the name is `upper(dpt + num)` while `dpt` and `num` are stored unchanged; a taken name is an IntegrityError that stores nothing |
| Models.CreateCourseKeepsInvariant | scheduler_site-main/scheduler_app/models.py:61-69 | creating a course keeps the invariant |
| Models.CreateCourseTwice | scheduler_site-main/scheduler_app/models.py:68-73 | a second course with the same resulting name fails with IntegrityError and exactly the first course stays |
| Models.CourseNameUpperCase | scheduler_site-main/scheduler_app/models.py:62-65 | a course name has no lower-case letter and is the upper-cased `dpt` followed by the upper-cased `num` |
| Models.SectionArgsError | scheduler_site-main/scheduler_app/models.py:88-107 | the argument checks raise nothing exactly on good arguments, and otherwise raise only TypeError or ValueError |
| Models.SectionCheckOrder | scheduler_site-main/scheduler_app/models.py:88-107 | the order of the checks: missing number TypeError, length ValueError, course TypeError, times TypeError, day pattern TypeError, and start not before end ValueError |
| Models.AfterCreateSection | scheduler_site-main/scheduler_app/models.py:87-122 | succeeds exactly on good arguments with a free number in that course; a taken number is ValueError; a failure stores nothing; success stores the section with no user |
| Models.CreateSectionKeepsInvariant | scheduler_site-main/scheduler_app/models.py:87-122 | creating a section keeps the invariant |
| Models.SectionNumbersPerCourse | scheduler_site-main/scheduler_app/models.py:110-114 | the same number twice in one course fails and keeps one section, while the same number in another course is allowed |
| Models.SameSlotAllowed | scheduler_site-main/scheduler_app/models.py:106-122 | two sections of one course may share a time slot |
| Models.AfterCreateSkill | scheduler_site-main/scheduler_app/models.py:160-170 | a missing or empty name is TypeError and a taken name is IntegrityError, both storing nothing; otherwise a skill with no users is stored |
| Models.CreateSkillKeepsInvariant | scheduler_site-main/scheduler_app/models.py:160-166 | creating a skill keeps the invariant |
| Models.AfterDeleteCourse | scheduler_site-main/scheduler_app/models.py:140 | deleting a course removes it and exactly its sections (CASCADE); nothing else changes |
| Models.DeleteCourseKeepsInvariant | scheduler_site-main/scheduler_app/models.py:140 | the cascade keeps the invariant |
| Models.AfterDeleteUser | scheduler_site-main/scheduler_app/models.py:141 | deleting a user removes the user, sets `user` to None on exactly the sections that held them without deleting any, and drops them from course and skill memberships |
| Models.DeleteUserKeepsInvariant | scheduler_site-main/scheduler_app/models.py:141 | SET_NULL keeps the invariant |
| Models.DeleteUserKeepsCourses | scheduler_site-main/scheduler_app/models.py:141 | course memberships stay valid after a user is deleted |
| Models.DeleteUserKeepsSections | scheduler_site-main/scheduler_app/models.py:141 | section references stay valid after a user is deleted |
| Models.DeleteUserKeepsSkills | scheduler_site-main/scheduler_app/models.py:141 | skill memberships stay valid after a user is deleted |
| Models.DeleteUserLeavesNoReference | scheduler_site-main/scheduler_app/models.py:141 | after the delete, no section refers to the user and the number of sections is the same |
| Models.StrLessEqTotal | scheduler_site-main/scheduler_app/models.py:156 | string order on section numbers is total |
| Models.StrLessEqTransitive | scheduler_site-main/scheduler_app/models.py:156 | string order on section numbers is transitive |
| Models.StrLessEqAntisymmetric | scheduler_site-main/scheduler_app/models.py:156 | string order on section numbers is antisymmetric |
| Models.SectionOrderTotal | scheduler_site-main/scheduler_app/models.py:155-156 | the Meta ordering (type descending, then number) is total and puts lectures before labs |
| Models.SectionOrderTransitive | scheduler_site-main/scheduler_app/models.py:155-156 | the Meta ordering is transitive |
| Models.Store.constructor | scheduler_site-main/scheduler_app/models.py:36-170 | a new store is the empty database and is valid |
| Models.Store.CreateUser | scheduler_site-main/scheduler_app/models.py:9-19 | the store becomes `AfterCreateUser` of the old store and returns its result |
| Models.Store.CreateCourse | scheduler_site-main/scheduler_app/models.py:61-69 | the store becomes `AfterCreateCourse` of the old store and returns its result |
| Models.Store.CreateSection | scheduler_site-main/scheduler_app/models.py:87-122 | the loop over the course's sections rejects a taken number; the store becomes `AfterCreateSection` of the old store |
| Models.Store.CreateSkill | scheduler_site-main/scheduler_app/models.py:160-166 | the store becomes `AfterCreateSkill` of the old store and returns its result |
| Models.Store.DeleteCourse | scheduler_site-main/scheduler_app/models.py:140 | the store becomes `AfterDeleteCourse` of the old store |
| Models.Store.DeleteUser | scheduler_site-main/scheduler_app/models.py:141 | the store becomes `AfterDeleteUser` of the old store |
| HomePage.Insert | scheduler_site-main/scheduler_app/views.py:71-86 | insertion into a list adds exactly the new section |
| HomePage.InsertSorted | scheduler_site-main/scheduler_app/views.py:71-86 | insertion keeps a list ordered by start time |
| HomePage.SortByStart | scheduler_site-main/scheduler_app/views.py:71-86 | `sorted(key=meeting_start)` is a permutation |
| HomePage.SortByStartSorted | scheduler_site-main/scheduler_app/views.py:71-86 | `sorted(key=meeting_start)` is ordered by start time |
| HomePage.InsertListed | scheduler_site-main/scheduler_app/views.py:71-86 | stable insertion keeps the query's Meta order among sections with equal start |
| HomePage.SortByStartListed | scheduler_site-main/scheduler_app/views.py:57-86 | the stable sort of a Meta-ordered list is ordered by start, then by Meta order |
| HomePage.OnDays | scheduler_site-main/scheduler_app/views.py:71-85 | a day filter keeps exactly the sections whose pattern is one of the day's codes |
| HomePage.OnDaysListed | scheduler_site-main/scheduler_app/views.py:71-86 | filtering keeps a list ordered |
| HomePage.NoScheduleWhen | scheduler_site-main/scheduler_app/views.py:51-62 | the schedule is None exactly for a Supervisor or a user without sections |
| HomePage.HomeScheduleBuckets | scheduler_site-main/scheduler_app/views.py:51-89 | None exactly for a Supervisor or a user with no sections; otherwise MW goes to Monday and Wednesday, TR to Tuesday and Thursday, F only to Friday, and every list is ordered |
| HomePage.ScheduleWeek | scheduler_site-main/scheduler_app/views.py:63-89 | each day's list holds exactly the user's sections for that day, ordered by start |
| HomePage.EverySectionScheduled | scheduler_site-main/scheduler_app/views.py:63-89 | every section of the user appears under at least one day |
| Views.AddCourseOutcome | scheduler_site-main/scheduler_app/views.py:125-146 | a Supervisor's POST adds the course exactly when the stripped `dpt` is alphabetic, the stripped `num` is digits and the name is free; otherwise the invalid-name or already-exists warning |
| Views.AddCourseSaves | scheduler_site-main/scheduler_app/views.py:125-146 | the view's database is unchanged or is `create_course` applied to the stripped fields |
| Views.AddCourseKeepsInvariant | scheduler_site-main/scheduler_app/views.py:112-148 | add_course keeps the invariant |
| Views.DeleteCourseOutcome | scheduler_site-main/scheduler_app/views.py:151-171 | only a Supervisor changes anything; an existing course is deleted with its sections and a success message, and an unknown one gives "Course not found." |
| Views.AddUserOutcome | scheduler_site-main/scheduler_app/views.py:335-350 | a Supervisor's POST adds the user exactly when the stripped e-mail is valid and free; otherwise the not-valid or already-exists warning, with nothing stored |
| Views.AddUserSaves | scheduler_site-main/scheduler_app/views.py:335-350 | the view's database is `create_user` applied to the stripped e-mail |
| Views.AddUserKeepsInvariant | scheduler_site-main/scheduler_app/views.py:322-352 | add_user keeps the invariant |
| Views.DeleteUserOutcome | scheduler_site-main/scheduler_app/views.py:355-381 | only a Supervisor deleting someone else changes anything, and deleting oneself is refused with its warning |
| Views.FirstMissing | scheduler_site-main/scheduler_app/views.py:412-419 | reports the first missing contact field, or that all are present |
| Views.ContactFieldsPresent | scheduler_site-main/scheduler_app/views.py:412-419 | no contact field is missing exactly when the POST holds all eight |
| Views.SkillChanges | scheduler_site-main/scheduler_app/views.py:423-440 | the skill edit changes only skill memberships and reports at most one warning |
| Views.SkillChangesOutcome | scheduler_site-main/scheduler_app/views.py:423-440 | adding and removing the same skill changes nothing and reports that warning |
| Views.UserInfoAccess | scheduler_site-main/scheduler_app/views.py:397-399 | a non-Supervisor viewing someone else's info is refused with "Access denied." |
| Views.UserInfoStores | scheduler_site-main/scheduler_app/views.py:411-447 | a permitted POST saves the contact fields, applies the skill edit, flashes "Account info updated." before the skill warning, and redirects home for one's own info and to the users page otherwise |
| Views.UserInfoSavesContact | scheduler_site-main/scheduler_app/views.py:412-421 | the eight POST fields become the user's contact data |
| Views.UserInfoKeepsInvariant | scheduler_site-main/scheduler_app/views.py:384-447 | user_info keeps the invariant |
| Views.ContactKeepsInvariant | scheduler_site-main/scheduler_app/views.py:412-421 | saving contact data keeps the invariant |
| Views.SkillChangesKeepInvariant | scheduler_site-main/scheduler_app/views.py:423-440 | the skill edit keeps the invariant |
| Views.SkillUsersKeepInvariant | scheduler_site-main/scheduler_app/views.py:428-436 | changing one skill's users to known users keeps the invariant |
| Views.AddCourse | scheduler_site-main/scheduler_app/views.py:112-148 | the method produces `AddCourseResponse` and leaves the store at its database |
| Views.DeleteCourse | scheduler_site-main/scheduler_app/views.py:151-171 | the method produces `DeleteCourseResponse` and leaves the store at its database |
| Views.AddUser | scheduler_site-main/scheduler_app/views.py:322-352 | the method produces `AddUserResponse` and leaves the store at its database |
| Views.DeleteUser | scheduler_site-main/scheduler_app/views.py:355-381 | the method produces `DeleteUserResponse` and leaves the store at its database |
| Views.SetSkillMember | scheduler_site-main/scheduler_app/views.py:428-436 | `skill.users.add` / `.remove` changes that skill's users only |
| Views.ChangeSkills | scheduler_site-main/scheduler_app/views.py:423-440 | the method's store and warnings are those of `SkillChanges` |
| Views.UserInfo | scheduler_site-main/scheduler_app/views.py:384-447 | the method produces `UserInfoResponse` and leaves the store at its database |
| Views.SaveUserInfo | scheduler_site-main/scheduler_app/views.py:412-440 | saving the contact data and then the skill edit gives `SkillChanges` of the store with the new contact |
| CourseUpdate.ClearedSections | scheduler_site-main/scheduler_app/views.py:211-214 | clears `user` on exactly this course's sections held by the removed user |
| CourseUpdate.AddUserStep | scheduler_site-main/scheduler_app/views.py:203-205 | adding a course user never touches sections and only appends messages |
| CourseUpdate.SupervisorSteps | scheduler_site-main/scheduler_app/views.py:201-250 | the Supervisor steps only append messages and never change users or the set of courses |
| CourseUpdate.UnassignStep | scheduler_site-main/scheduler_app/views.py:279-286 | unassigning never crashes and never adds a message |
| CourseUpdate.StaffSteps | scheduler_site-main/scheduler_app/views.py:253-286 | the assignment steps change only sections (the rest of the database is equal) and only append warnings |
| CourseUpdate.RunBatch | scheduler_site-main/scheduler_app/views.py:198-286 | the batch only appends warnings and never changes users or the set of courses |
| CourseUpdate.UpdateCourseRefusals | scheduler_site-main/scheduler_app/views.py:175-196 | not logged in, course not found, a TA and an Instructor outside the course are refused in that order with their messages, and only an allowed POST changes the store |
| CourseUpdate.UpdateCourseCompletes | scheduler_site-main/scheduler_app/views.py:198-291 | unless a step crashed or the description field is missing, an allowed POST sets the description, ends with exactly one "<name> has been updated." after warnings only, and redirects to the courses page |
| CourseUpdate.AddUserOutcome | scheduler_site-main/scheduler_app/views.py:203-205 | an unknown e-mail is an uncaught IndexError from `filter(...)[0]` that leaves the batch as it was; a known one joins exactly this course's users, becomes the acting user, and nothing else in the store or the messages changes |
| CourseUpdate.RemoveUserClearsSections | scheduler_site-main/scheduler_app/views.py:208-214 | removing a user takes them out of the course and clears `user` on exactly this course's sections they held; the removed account becomes the acting user |
| CourseUpdate.RemoveSectionOutcome | scheduler_site-main/scheduler_app/views.py:249-250 | a number this course has no section with is an uncaught IndexError that leaves the batch as it was; otherwise exactly that section is deleted and nothing else changes |
| CourseUpdate.AddSectionOutcome | scheduler_site-main/scheduler_app/views.py:217-246 | a missing field is "Invalid section request"; otherwise the section is added exactly when `create_section` accepts; reversed times give the ValueError's message; a TypeError from `create_section` is uncaught |
| CourseUpdate.AssignCheckOrder | scheduler_site-main/scheduler_app/views.py:255-276 | the assignment checks in order (user missing, section being removed, user being removed, unknown row, not a member, lecture needs an Instructor), each with its warning and no section changed |
| CourseUpdate.AssignMadeWhenAllowed | scheduler_site-main/scheduler_app/views.py:255-276 | the assignment succeeds silently exactly when every check passes, and then sets that section's user |
| CourseUpdate.UnassignOutcome | scheduler_site-main/scheduler_app/views.py:279-286 | unassigning clears exactly that section's user, and a section that no longer exists is ignored |
| CourseUpdate.TaActorSkipsAssignments | scheduler_site-main/scheduler_app/views.py:203-253 | when a Supervisor's POST adds or removes a TA, the assignment fields have no effect |
| CourseUpdate.TaBatchIgnoresAssignFields | scheduler_site-main/scheduler_app/views.py:203-253 | the same for the batch alone |
| CourseUpdate.ActorAfterSupervisorSteps | scheduler_site-main/scheduler_app/views.py:204-253 | after the Supervisor steps the acting user is the removed user, else the added user, else the caller |
| CourseUpdate.SupervisorStepsIgnoreAssignFields | scheduler_site-main/scheduler_app/views.py:201-250 | the Supervisor steps do not read the assignment fields |
| CourseUpdate.AddSectionStepIgnoresAssignFields | scheduler_site-main/scheduler_app/views.py:217-246 | the add-section step does not read the assignment fields |
| CourseUpdate.InstructorSkipsSupervisorSteps | scheduler_site-main/scheduler_app/views.py:201-286 | an Instructor's POST changes no course membership and adds or removes no section |
| CourseUpdate.CourseUsersKeepInvariant | scheduler_site-main/scheduler_app/views.py:203-210 | changing a course's users to known users keeps the invariant |
| CourseUpdate.ClearedSectionsKeepInvariant | scheduler_site-main/scheduler_app/views.py:211-214 | clearing section users keeps the invariant |
| CourseUpdate.SectionUserKeepsInvariant | scheduler_site-main/scheduler_app/views.py:272-284 | setting one section's user to a known user or None keeps the invariant |
| CourseUpdate.AddUserStepKeepsInvariant | scheduler_site-main/scheduler_app/views.py:203-205 | the add-user step keeps the invariant |
| CourseUpdate.RemoveUserStepKeepsInvariant | scheduler_site-main/scheduler_app/views.py:208-214 | the remove-user step keeps the invariant |
| CourseUpdate.AddSectionStepKeepsInvariant | scheduler_site-main/scheduler_app/views.py:217-246 | the add-section step keeps the invariant |
| CourseUpdate.RemoveSectionStepKeepsInvariant | scheduler_site-main/scheduler_app/views.py:249-250 | the remove-section step keeps the invariant |
| CourseUpdate.AssignStepKeepsInvariant | scheduler_site-main/scheduler_app/views.py:255-276 | the assign step keeps the invariant |
| CourseUpdate.UnassignStepKeepsInvariant | scheduler_site-main/scheduler_app/views.py:279-286 | the unassign step keeps the invariant |
| CourseUpdate.FinishKeepsInvariant | scheduler_site-main/scheduler_app/views.py:288-291 | saving the description keeps the invariant |
| CourseUpdate.ClearSectionUsers | scheduler_site-main/scheduler_app/views.py:211-214 | the loop over the removed user's sections leaves exactly `ClearedSections` and changes nothing else |
| CourseUpdate.RunAddUser | scheduler_site-main/scheduler_app/views.py:203-205 | the store follows `AddUserStep` |
| CourseUpdate.RunRemoveUser | scheduler_site-main/scheduler_app/views.py:208-214 | the store follows `RemoveUserStep` |
| CourseUpdate.RunAddSection | scheduler_site-main/scheduler_app/views.py:217-246 | the store follows `AddSectionStep` |
| CourseUpdate.RunRemoveSection | scheduler_site-main/scheduler_app/views.py:249-250 | the store follows `RemoveSectionStep` |
| CourseUpdate.RunAssign | scheduler_site-main/scheduler_app/views.py:255-276 | the store follows `AssignStep` |
| CourseUpdate.RunUnassign | scheduler_site-main/scheduler_app/views.py:279-286 | the store follows `UnassignStep` |
| CourseUpdate.RunSupervisorSteps | scheduler_site-main/scheduler_app/views.py:201-250 | the store follows `SupervisorSteps` |
| CourseUpdate.RunStaffSteps | scheduler_site-main/scheduler_app/views.py:253-286 | the store follows `StaffSteps` |
| CourseUpdate.RunFinish | scheduler_site-main/scheduler_app/views.py:288-291 | the store follows `Finish` |
| CourseUpdate.RunOpeningSteps | scheduler_site-main/scheduler_app/views.py:198-250 | the store follows the Supervisor steps for a Supervisor and is unchanged otherwise |
| CourseUpdate.RunBatchOn | scheduler_site-main/scheduler_app/views.py:198-286 | the store follows `RunBatch` |
| CourseUpdate.UpdateCourse | scheduler_site-main/scheduler_app/views.py:174-309 | the method produces `UpdateCourseResponse` and leaves the store at its database |
| ShellState.Newest | shell/wsh.c:69-98 | keeping the newest `n` entries has length `min(count, n)` |
| ShellState.RecordedShape | shell/wsh.c:101-146 | add_history does nothing at capacity 0 or for a repeat of the head; otherwise the command becomes the head, the count stays within capacity, and only the oldest entry is dropped |
| ShellState.NewestIsPrefix | shell/wsh.c:69-98 | the kept entries are the newest ones in their original order |
| ShellState.NewestTwice | shell/wsh.c:69-98 | shrinking the capacity twice is shrinking it once to the smaller value |
| ShellState.Position | shell/wsh.c:240-256 | the index of the first variable with that name, or the length when there is none |
| ShellState.Find | shell/wsh.c:240-256 | find_variable returns a variable with that name, and NULL exactly when there is none |
| ShellState.UnsetOutcome | shell/wsh.c:259-293 | unset removes the named variable only, leaves the rest in order, does nothing when it is absent, and keeps names unique |
| ShellState.SetLocalOutcome | shell/wsh.c:312-366 | an empty or NULL value unsets; an existing name is replaced in place; a new name is appended; names stay unique |
| ShellState.SplitAssignment | shell/wsh.c:546-549 | `strtok(arg, "=")` gives a name that is non-empty and holds no '=', and a value only when there is a name |
| ShellState.SplitJoined | shell/wsh.c:546-549 | splitting `name=value` gives the name back, and the value when it is non-empty |
| ShellState.BuiltInByPrefix | shell/wsh.c:697-712 | built-ins are detected by prefix: "cdx" and "exporter" count, "ls" and "c" do not |
| ShellState.Chomp | shell/wsh.c:686-689 | the trailing newline, and only it, is removed |
| ShellState.Shell.constructor | shell/wsh.c:42-46 | the shell starts with empty history and variables and the default capacity |
| ShellState.Shell.DropOldest | shell/wsh.c:128-145 | the tail entry of the history is removed |
| ShellState.Shell.AddHistory | shell/wsh.c:101-146 | the history becomes `Recorded(old history, capacity, command)` |
| ShellState.Shell.AdjustHistoryCapacity | shell/wsh.c:69-98 | the capacity becomes `n` and the history its newest `n` entries |
| ShellState.Shell.HistoryEntry | shell/wsh.c:161-174 | an index outside 1..count is refused, and index i is the i-th most recent entry |
| ShellState.Shell.Seek | shell/wsh.c:240-256 | the walk down the list stops at the first match |
| ShellState.Shell.FindVariable | shell/wsh.c:240-256 | returns `Find` of the variable list |
| ShellState.Shell.UnsetVariable | shell/wsh.c:259-293 | the variable list becomes `Unset` of the old one |
| ShellState.Shell.SetLocalVariable | shell/wsh.c:312-366 | the variable list becomes `SetLocal` of the old one |
| ShellState.Shell.LocalCommand | shell/wsh.c:546-550 | `local name=value` splits the argument and sets the variable; no name leaves the list unchanged |
| ShellState.Shell.ReadLine | shell/wsh.c:686-717 | an empty line or a built-in is not recorded; any other line is recorded after the newline is stripped |
| ShellState.Shell.DetectBuiltIn | shell/wsh.c:699-712 | the `strncmp` walk over the six built-in names answers true exactly when one of them, compared over its own length, is a prefix of the line |
| ShellArgv.End | shell/wsh.c:420-447 | the index of the terminating NULL |
| ShellArgv.NonEmptyMembers | shell/wsh.c:420-434 | compaction keeps exactly the non-empty arguments |
| ShellArgv.NonEmptyIdentity | shell/wsh.c:420-434 | compaction leaves an argv without empty strings unchanged |
| ShellArgv.CompactArgv | shell/wsh.c:420-434 | in place, the non-empty arguments move to the front in order, followed by NULL |
| ShellArgv.PipesAppend | shell/wsh.c:436-447 | pipe counts add up over concatenation |
| ShellArgv.CompactKeepsPipes | shell/wsh.c:420-447 | compaction keeps the pipe count, which is at most the number of arguments |
| ShellArgv.CountPipes | shell/wsh.c:436-447 | count_pipes counts the arguments before NULL that equal "\|" |
| ShellArgv.Lookup | shell/wsh.c:392-404 | the environment value is preferred (an empty name is never in the environment, as `getenv("")` gives NULL), then the shell variable's value, else nothing |
| ShellArgv.Unresolved | shell/wsh.c:383-417 | the number of references that resolve to nothing is at most the argument count |
| ShellArgv.SubstitutedPlain | shell/wsh.c:383-417 | arguments without '$' are unchanged |
| ShellArgv.SubstitutedLength | shell/wsh.c:383-417 | each unresolved reference shortens argv by exactly one |
| ShellArgv.SubstitutedSome | shell/wsh.c:383-417 | substitution introduces no NULL inside argv |
| ShellArgv.SubstituteExample | shell/wsh.c:383-417 | "echo $HOME $missing x" with HOME in the environment becomes "echo /home/u x" |
| ShellArgv.ShiftLeft | shell/wsh.c:405-412 | the left shift moves every later argument, and the NULL, down by one |
| ShellArgv.SubstituteAt | shell/wsh.c:387-415 | one loop turn keeps, replaces or deletes the current argument |
| ShellArgv.SubstituteVariables | shell/wsh.c:383-417 | in place, argv becomes `Substituted` of the old arguments, followed by NULL |
| Minesweeper.MineAt | Minesweap/MineSweapPart.java:18 | a cell is a mine exactly when its value is 9 |
| Minesweeper.Blank | Minesweap/MineSweapPart.java:50-66 | the fresh grid is 16×16 |
| Minesweeper.BlankConsistent | Minesweap/MineSweapPart.java:50-66 | the all-zero grid has no mines and is consistent |
| Minesweeper.MinesAroundAtMostEight | Minesweap/MineSweapPart.java:17 | a cell has at most eight mine neighbours |
| Minesweeper.MinesAroundAtMostSeven | Minesweap/MineSweapPart.java:78-106 | a neighbour of a non-mine cell has at most seven mine neighbours, so the increment stays within 8 |
| Minesweeper.Placed | Minesweap/MineSweapPart.java:72-107 | placing a mine yields a 16×16 grid |
| Minesweeper.PlacedMinesAt | Minesweap/MineSweapPart.java:75-106 | after placing, a cell is a mine exactly when it was one or is the placed cell |
| Minesweeper.PlacedMines | Minesweap/MineSweapPart.java:75-106 | placing adds exactly the placed cell to the mines |
| Minesweeper.PlacedKeepsConsistent | Minesweap/MineSweapPart.java:72-107 | after placing, every non-mine cell still holds its number of mine neighbours |
| Minesweeper.PlaceAll | Minesweap/MineSweapPart.java:70-112 | placing a sequence of draws yields a 16×16 grid |
| Minesweeper.NeighboursDone | Minesweap/MineSweapPart.java:78-106 | the rows below and above plus the two side cells are exactly the in-bounds 8-neighbours |
| Minesweeper.PlaceAllFromBlank | Minesweap/MineSweapPart.java:50-112 | from the all-zero grid every non-mine cell holds its number of mine neighbours, and the mines are exactly the drawn cells |
| Minesweeper.PlaceOneMore | Minesweap/MineSweapPart.java:72-107 | one more draw keeps the grid consistent and adds its cell to the mines |
| Minesweeper.RepeatedDrawShrinks | Minesweap/MineSweapPart.java:72-76 | a repeated draw makes fewer distinct cells than draws |
| Minesweeper.RepeatedDrawLeavesFewerMines | Minesweap/MineSweapPart.java:72-110 | ten draws with a repeat leave fewer than ten mines |
| Minesweeper.ValueStr | Minesweap/MineSweapPart.java:116-128 | "BOMB" exactly outside 0..8; otherwise the one decimal digit of the value |
| Minesweeper.ValueStrShowsMines | Minesweap/MineSweapPart.java:116-128 | on a consistent grid "BOMB" is shown exactly on mines, and otherwise the digit counts the mine neighbours |
| Minesweeper.StartOk | Minesweap/MineSweapPart.java:20-32 | the start counters satisfy the counter invariant |
| Minesweeper.FlagKeepsCounters | Minesweap/MineSweapPart.java:147-177 | flagging keeps `guessedMinesLeft + #flags == 10`, keeps `actualMinesLeft == 10 - #flagged mines` and keeps `running` in step with it |
| Minesweeper.UnflagKeepsCounters | Minesweap/MineSweapPart.java:179-196 | unflagging keeps the same counter invariant |
| Minesweeper.UnflagAfterFlag | Minesweap/MineSweapPart.java:147-196 | a flag followed by an unflag of the same cell restores both counters |
| Minesweeper.StopsWhenAllMinesFlagged | Minesweap/MineSweapPart.java:165-172 | with ten mines, the game stops exactly when every mine is flagged |
| Minesweeper.FewerMinesNeverStop | Minesweap/MineSweapPart.java:165-172 | with fewer than ten mines, the game never stops by flagging |
| Minesweeper.Game.constructor | Minesweap/MineSweapPart.java:32-48 | as written: a new game from ten draws has start counters and the grid `PlaceAll` of the draws, whose mines are exactly the distinct drawn cells |
| Minesweeper.Game.Repaired | Minesweap/MineSweapPart.java:32-48 | with the retry of `setMines` restored: start counters, mines only on drawn cells, and exactly ten of them when the draws hold ten distinct cells |
| Minesweeper.Game.CreateContents | Minesweap/MineSweapPart.java:50-66 | every cell is set to 0 |
| Minesweeper.Game.PlaceMine | Minesweap/MineSweapPart.java:72-107 | the grid becomes `Placed` of the old grid, and an existing mine is left unchanged |
| Minesweeper.Game.SetMinesOnce | Minesweap/MineSweapPart.java:70-112 | as written: ten draws, each placed once, leave the grid at `PlaceAll` of the draws |
| Minesweeper.Game.SetMines | Minesweap/MineSweapPart.java:70-112 | with the retry restored: the grid is consistent, its mines are drawn cells, at most ten, and exactly ten when the draws hold ten distinct cells |
| Minesweeper.Game.DrawOne | Minesweap/MineSweapPart.java:72-107 | a draw adds its cell to the mines, and counts exactly when the cell was free |
| Minesweeper.Game.Lay | Minesweap/MineSweapPart.java:44-46 | `createContents` then `setMines` as written: the array mirrors a consistent grid equal to `PlaceAll` of the draws, whose mines are exactly the distinct drawn cells |
| Minesweeper.Game.LayRepaired | Minesweap/MineSweapPart.java:44-46 | `createContents` then `setMines` with the retry: the array mirrors a consistent grid whose mines are drawn cells, at most ten, and exactly ten when the draws hold ten distinct cells |
| Minesweeper.Game.PlaceDraw | Minesweap/MineSweapPart.java:72-107 | one turn of the loop on the `i`-th draw extends the grid from `PlaceAll` of the first `i` draws to `PlaceAll` of the first `i + 1` |
| Minesweeper.Game.MarkMine | Minesweap/MineSweapPart.java:76 | the drawn cell becomes 9 and every other cell keeps its value |
| Minesweeper.Game.Bump | Minesweap/MineSweapPart.java:79-81 | one neighbour goes up by one unless it holds a mine; every other cell keeps its value |
| Minesweeper.Game.BumpRow | Minesweap/MineSweapPart.java:78-99 | the in-bounds cells of one neighbouring row (the column, its right and its left) have had their increment, mines excepted |
| Minesweeper.Game.BumpSides | Minesweap/MineSweapPart.java:100-106 | the in-bounds cells right and left of the mine have had their increment, mines excepted |
| Minesweeper.Game.BumpBelow | Minesweap/MineSweapPart.java:78-88 | when `randRow + 1` is in bounds, that row's neighbours have had their increment |
| Minesweeper.Game.BumpAbove | Minesweap/MineSweapPart.java:89-99 | when `randRow - 1` is in bounds, that row's neighbours have had their increment as well |
| Minesweeper.Game.BumpBeside | Minesweap/MineSweapPart.java:100-106 | the two side cells have had their increment as well, completing the below, above and side updates |
| Minesweeper.Game.Settle | Minesweap/MineSweapPart.java:76-106 | once the below, above and side increments are done, the array holds exactly `Placed` of the old grid at the drawn cell |
| Minesweeper.Game.FlagCell | Minesweap/MineSweapPart.java:147-177 | the counters become `Flag` of the old ones |
| Minesweeper.Game.UnflagCell | Minesweap/MineSweapPart.java:179-196 | the counters become `Unflag` of the old ones |
| Minesweeper.Game.GridValueStr | Minesweap/MineSweapPart.java:116-128 | returns `ValueStr` of the cell, which is "BOMB" exactly on mines |

## Left out

- Password hashing (`set_password`), `authenticate`/`login`/`logout`, routing, templates and the rendering of pages. A page is an abstract `Page` value (a redirect route, a template name or a server error).
- The messages framework is a sequence of `Message` values. Logging in is a `caller: Option<Email>` that must name an existing user.
- The GET branches that list users, sections and skills for a template are not modelled. Only their access checks are.
- `max_length` limits on model fields are not modelled. Neither are a `Course` that is not yet saved, nor `create_superuser`.
- The Python string methods (`upper`, `lower`, `strip`, `isalpha`, `isdigit`) are modelled on ASCII only. Unicode case mapping and Unicode digits are not modelled.
- PyTime.ParseClock: the `%H`/`%M` digits are ASCII only, while Python's `\d` (the pattern is compiled without `re.ASCII`) also accepts other Unicode decimal digits and `int()` converts them, so "\u0669:05" parses as 09:05 in Python but fails here; the Unicode digit table is not modelled. The error text quotes the input without Python's `repr` escaping. Times are minutes of the day, and seconds are not modelled.
- Models.SectionArgsError: Python before 3.5 treats midnight as false, which would make a start time of 00:00 a TypeError. The model follows Python 3.5 and later, where it is not.
- The wsh process and OS layer: `fork`/`execvp`/`pipe`/`dup2`/`wait`, `chdir`, the `export` built-in's `setenv`, `getline`, `printf`, `malloc` and `free`. The environment is a map parameter.
- The use-after-free of `cmd_copy` in `execute_history_command` and the re-execution of a history entry are not modelled. Only the index lookup is.
- ShellState.Shell.AdjustHistoryCapacity: requires `n >= 0`. With a negative `n`, the C walks past the end of the list and dereferences NULL.
- ShellState.Shell.LocalCommand: an argument with no name makes `strtok` return NULL, which `set_local_variable` then dereferences. That is undefined behaviour, and the model leaves the variables unchanged.
- Minesweeper's Swing user interface, button texts and colours are not modelled. Neither are `exposeCell` with its flood fill, nor the mine-click loop, which keeps its state in button text and computes component indices past the grid.
- Minesweeper: `Math.random` is replaced by a sequence of drawn cells passed in. The counters are static in the Java, and the model gives each game its own.
- Minesweeper.Game.FlagCell: the click listener's CTRL and SHIFT branches are modelled. A shift-click on an unflagged cell falls through to exposing the cell, which is not modelled.
- Models.Store.DeleteUser: the SET_NULL and membership updates are assigned at once from `AfterDeleteUser`. The order in which the database updates rows is not modelled.
- Concurrency between requests, and database transactions beyond autocommit, are not modelled.

## Findings

| source | as written | input that shows it | evidently intended | confidence | as-written member | corrected member |
|---|---|---|---|---|---|---|
| Minesweap/MineSweapPart.java:70-112 | `setMines` draws ten random cells and skips a draw that hits an existing mine, because the retry is commented out at lines 108-110. A repeated draw leaves fewer than ten mines, so `actualMinesLeft` never reaches 0 and the game cannot be won by flagging | ten draws in which two are the same cell | exactly `TOTAL_MINES` distinct mines, drawing again after a hit | not executed | Minesweeper.RepeatedDrawLeavesFewerMines | Minesweeper.Game.SetMines |
