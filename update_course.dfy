/**
 * The update_course handler of scheduler_app/views.py. After the access
 * checks, a POST runs as a best-effort batch: the Supervisor steps (add a
 * course user, remove one, add a section, remove a section), then the
 * assignment steps for Supervisors and Instructors (assign a section user,
 * unassign one), then the description is saved. A failed step adds one
 * warning and the batch goes on; an uncaught exception ends the request
 * with the earlier steps already saved.
 *
 * The handler keeps the account it is acting for in a variable `user` that
 * the add-user and remove-user steps overwrite with the account they look
 * up, so the role test before the assignment steps reads the type of that
 * account, not the caller's. `Batch.actorType` carries it.
 */
module CourseUpdate {
  import opened Wrappers
  import opened PyBuiltins
  import opened PyTime
  import opened Models
  import opened Views

  const UpdateCourseTemplate := "scheduler_app/update-course.html"
  const InvalidSectionRequest := "Invalid section request"
  const AssignNeedsUser := "When assigning user to a section, user must be specified."
  const AssignRemovedSection := "Cannot assign user to a section that is being removed."
  const AssignRemovedUser := "Cannot assign a user to a section if they are being removed from the course."
  const AssignNotMember := "A user must belong to a course to be assigned to a section of the course."
  const LectureNeedsInstructor := "Only instructors can be assigned to lectures."

  /** The store, the messages so far, and the account type of whoever `user` names now. */
  datatype Batch = Batch(db: Db, messages: seq<Message>, actorType: string)

  /** A step either lets the batch go on or ends it with an uncaught exception. */
  datatype Step = Next(b: Batch) | Crash(b: Batch, exc: Exception)

  predicate AllWarnings(ms: seq<Message>) {
    forall i :: 0 <= i < |ms| ==> ms[i].WarningMsg?
  }

  /** `after` is `before` followed by warnings only. */
  predicate Grows(before: seq<Message>, after: seq<Message>) {
    |before| <= |after| && after[..|before|] == before && AllWarnings(after[|before|..])
  }

  lemma GrowsTransitive(a: seq<Message>, b: seq<Message>, c: seq<Message>)
    requires Grows(a, b) && Grows(b, c)
    ensures Grows(a, c)
  {
    assert c[..|a|] == c[..|b|][..|a|];
    forall i | 0 <= i < |c| - |a| ensures c[|a|..][i].WarningMsg? {
      if |a| + i < |b| {
        assert c[|a| + i] == b[|a| + i] == b[|a|..][i];
      } else {
        assert c[|a| + i] == c[|b|..][|a| + i - |b|];
      }
    }
  }

  /**
   * What every step promises: accounts and courses stay, earlier messages
   * stay and at most one warning is added, and a crash changes nothing.
   */
  predicate Stepped(b: Batch, s: Step) {
    && s.b.db.users == b.db.users
    && s.b.db.courses.Keys == b.db.courses.Keys
    && Grows(b.messages, s.b.messages) && |s.b.messages| <= |b.messages| + 1
    && (s.Crash? ==> s.b == b)
  }

  function Warned(b: Batch, text: string): (s: Step)
    ensures Stepped(b, s)
  {
    assert (b.messages + [WarningMsg(text)])[..|b.messages|] == b.messages;
    Next(b.(messages := b.messages + [WarningMsg(text)]))
  }

  function WithCourseUsers(db: Db, name: string, users: set<Email>): Db
    requires name in db.courses
  {
    db.(courses := db.courses[name := db.courses[name].(users := users)])
  }

  /** The sections of course `name` assigned to `email` lose their user; nothing else changes. */
  function ClearedSections(sections: map<SectionKey, Section>, name: string, email: Email): (r: map<SectionKey, Section>)
    ensures r.Keys == sections.Keys
    ensures forall k :: k in sections ==>
      r[k] == if sections[k].course == name && sections[k].user == Some(email)
              then sections[k].(user := None) else sections[k]
  {
    map k | k in sections ::
      if sections[k].course == name && sections[k].user == Some(email) then sections[k].(user := None) else sections[k]
  }

  // ---------------------------------------------------------------- Supervisor steps

  /** `add_user`: the account joins the course and becomes the acting user. */
  function AddUserStep(b: Batch, name: string, post: Post): (s: Step)
    requires name in b.db.courses
    ensures Stepped(b, s)
    ensures s.b.db.sections == b.db.sections
  {
    if "add_user" !in post then Next(b)
    else
      var e := post["add_user"];
      if e !in b.db.users then Crash(b, IndexError(IndexOutOfRange))
      else Next(Batch(WithCourseUsers(b.db, name, b.db.courses[name].users + {e}), b.messages, b.db.users[e].accountType))
  }

  /** `remove_user`: the account leaves the course and every section of it, and becomes the acting user. */
  function RemoveUserStep(b: Batch, name: string, post: Post): (s: Step)
    requires name in b.db.courses
    ensures Stepped(b, s)
  {
    if "remove_user" !in post then Next(b)
    else
      var e := post["remove_user"];
      if e !in b.db.users then Crash(b, IndexError(IndexOutOfRange))
      else
        var left := WithCourseUsers(b.db, name, b.db.courses[name].users - {e});
        Next(Batch(left.(sections := ClearedSections(left.sections, name, e)), b.messages, b.db.users[e].accountType))
  }

  /**
   * `section_type`: with all four other fields present, both times are
   * parsed and create_section runs; a ValueError from either is reported,
   * a TypeError is not caught.
   */
  function AddSectionStep(b: Batch, name: string, post: Post): (s: Step)
    requires name in b.db.courses
    ensures Stepped(b, s)
  {
    if "section_type" !in post then Next(b)
    else if "section_number" !in post || "section_start" !in post || "section_end" !in post || "section_days" !in post then
      Warned(b, InvalidSectionRequest)
    else match ParseClock(post["section_start"])
      case Failure(m) => Warned(b, m)
      case Success(start) =>
        match ParseClock(post["section_end"])
        case Failure(m) => Warned(b, m)
        case Success(end) =>
          var created := AfterCreateSection(b.db, Str(post["section_number"]), CourseRef(name), TimeArg(start),
                                            TimeArg(end), Str(post["section_days"]), post["section_type"]);
          match created.result
          case Success(_) => Next(b.(db := created.db))
          case Failure(ValueError(m)) => Warned(b, m)
          case Failure(e) => Crash(b, e)
  }

  /** `remove_section`: the section of this course with that number is deleted. */
  function RemoveSectionStep(b: Batch, name: string, post: Post): (s: Step)
    requires name in b.db.courses
    ensures Stepped(b, s)
  {
    if "remove_section" !in post then Next(b)
    else
      var k := SectionKey(name, post["remove_section"]);
      if k !in b.db.sections then Crash(b, IndexError(IndexOutOfRange))
      else Next(b.(db := b.db.(sections := b.db.sections - {k})))
  }

  function SupervisorSteps(b: Batch, name: string, post: Post): (s: Step)
    requires name in b.db.courses
    ensures Stepped(b, s) || (Grows(b.messages, s.b.messages) && s.b.db.users == b.db.users
                              && s.b.db.courses.Keys == b.db.courses.Keys)
  {
    match AddUserStep(b, name, post)
    case Crash(b1, e) => Crash(b1, e)
    case Next(b1) =>
      match RemoveUserStep(b1, name, post)
      case Crash(b2, e) => Crash(b2, e)
      case Next(b2) =>
        var s3 := AddSectionStep(b2, name, post);
        GrowsTransitive(b.messages, b2.messages, s3.b.messages);
        match s3
        case Crash(b3, e) => Crash(b3, e)
        case Next(b3) =>
          var s4 := RemoveSectionStep(b3, name, post);
          GrowsTransitive(b.messages, b3.messages, s4.b.messages);
          s4
  }

  // ---------------------------------------------------------------- assignment steps

  /** The assignment the form asks for passes every check, stated without their order. */
  predicate AssignAllowed(db: Db, name: string, post: Post)
    requires name in db.courses
  {
    && "to_sec_num" in post && "to_sec_user" in post
    && !("remove_section" in post && post["remove_section"] == post["to_sec_num"])
    && !("remove_user" in post && post["remove_user"] == post["to_sec_user"])
    && SectionKey(name, post["to_sec_num"]) in db.sections
    && post["to_sec_user"] in db.users
    && post["to_sec_user"] in db.courses[name].users
    && !(db.sections[SectionKey(name, post["to_sec_num"])].sectionType == Lecture
         && db.users[post["to_sec_user"]].accountType != Instructor)
  }

  /** `to_sec_num`: the checks of views.py in their order, then the assignment. */
  function AssignStep(b: Batch, name: string, post: Post): (s: Step)
    requires name in b.db.courses
    ensures Stepped(b, s) && s.b.db == b.db.(sections := s.b.db.sections)
  {
    if "to_sec_num" !in post then Next(b)
    else if "to_sec_user" !in post then Warned(b, AssignNeedsUser)
    else if "remove_section" in post && post["remove_section"] == post["to_sec_num"] then Warned(b, AssignRemovedSection)
    else if "remove_user" in post && post["remove_user"] == post["to_sec_user"] then Warned(b, AssignRemovedUser)
    else
      var k := SectionKey(name, post["to_sec_num"]);
      var e := post["to_sec_user"];
      if k !in b.db.sections then Crash(b, IndexError(IndexOutOfRange))
      else if e !in b.db.users then Crash(b, IndexError(IndexOutOfRange))
      else if e !in b.db.courses[name].users then Warned(b, AssignNotMember)
      else if b.db.sections[k].sectionType == Lecture && b.db.users[e].accountType != Instructor then
        Warned(b, LectureNeedsInstructor)
      else
        var section := b.db.sections[k].(user := Some(e));
        Next(b.(db := b.db.(sections := b.db.sections[k := section])))
  }

  /** `from_sec_num`: the section, if this course still has it, loses its user. */
  function UnassignStep(b: Batch, name: string, post: Post): (s: Step)
    requires name in b.db.courses
    ensures Stepped(b, s) && s.Next? && s.b.messages == b.messages
    ensures s.b.db == b.db.(sections := s.b.db.sections)
  {
    if "from_sec_num" !in post then Next(b)
    else
      var k := SectionKey(name, post["from_sec_num"]);
      if k !in b.db.sections then Next(b)
      else Next(b.(db := b.db.(sections := b.db.sections[k := b.db.sections[k].(user := None)])))
  }

  function StaffSteps(b: Batch, name: string, post: Post): (s: Step)
    requires name in b.db.courses
    ensures Grows(b.messages, s.b.messages) && s.b.db.users == b.db.users
    ensures s.b.db == b.db.(sections := s.b.db.sections)
  {
    match AssignStep(b, name, post)
    case Crash(b1, e) => Crash(b1, e)
    case Next(b1) => UnassignStep(b1, name, post)
  }

  // ---------------------------------------------------------------- the handler

  /**
   * The access checks the handler makes: a logged-in caller, an existing
   * course, not a TA, and not an Instructor outside the course. The account
   * type is not checked against the three choices anywhere, so an account of
   * any other type passes too.
   */
  predicate MayEdit(db: Db, caller: Option<Email>, name: string)
    requires Session(db, caller)
  {
    caller.Some? && name in db.courses
    && Role(db, caller) != TeachingAssistant
    && !(Role(db, caller) == Instructor && caller.value !in db.courses[name].users)
  }

  /** The batch after the Supervisor steps and, if the acting user is then staff, the assignment steps. */
  function RunBatch(db: Db, name: string, post: Post, role: string): (s: Step)
    requires name in db.courses
    ensures Grows([], s.b.messages) && s.b.db.users == db.users && s.b.db.courses.Keys == db.courses.Keys
  {
    var b0 := Batch(db, [], role);
    var s1 := if role == Supervisor then SupervisorSteps(b0, name, post) else Next(b0);
    if s1.Next? && (s1.b.actorType == Supervisor || s1.b.actorType == Instructor) then
      var s2 := StaffSteps(s1.b, name, post);
      GrowsTransitive([], s1.b.messages, s2.b.messages);
      s2
    else s1
  }

  /** The description is saved last, and the one success message closes the batch. */
  function Finish(s: Step, name: string, post: Post): Response
    requires name in s.b.db.courses
  {
    match s
    case Crash(b, e) => Response(b.db, b.messages, ServerError(e))
    case Next(b) =>
      if "course_descr" !in post then Response(b.db, b.messages, ServerError(KeyError("course_descr")))
      else
        var course := b.db.courses[name].(description := Some(post["course_descr"]));
        Response(b.db.(courses := b.db.courses[name := course]),
                 b.messages + [SuccessMsg(name + " has been updated.")], Redirect(CoursesRoute))
  }

  function UpdateCourseResponse(db: Db, caller: Option<Email>, name: string, isPost: bool, post: Post): Response
    requires Session(db, caller)
  {
    if caller.None? then LoginRedirect(db)
    else if name !in db.courses then Warn(db, CourseNotFound, CoursesRoute)
    else if Role(db, caller) == TeachingAssistant then Warn(db, AccessDenied, CoursesRoute)
    else if Role(db, caller) == Instructor && caller.value !in db.courses[name].users then
      Warn(db, AccessDenied, CoursesRoute)
    else if !isPost then Response(db, [], Render(UpdateCourseTemplate))
    else Finish(RunBatch(db, name, post, Role(db, caller)), name, post)
  }

  // ---------------------------------------------------------------- properties

  /**
   * The refusals come first and change nothing: not logged in, no such
   * course, a TA, an Instructor outside the course. Only an allowed POST
   * can change the store.
   */
  lemma UpdateCourseRefusals(db: Db, caller: Option<Email>, name: string, isPost: bool, post: Post)
    requires Session(db, caller)
    ensures var r := UpdateCourseResponse(db, caller, name, isPost, post);
            && (caller.None? ==> r == LoginRedirect(db))
            && (caller.Some? && name !in db.courses ==> Refused(r, db, CourseNotFound))
            && (caller.Some? && name in db.courses && !MayEdit(db, caller, name) ==> Refused(r, db, AccessDenied))
            && (r.db != db ==> MayEdit(db, caller, name) && isPost)
  {
  }

  /**
   * An allowed POST that raises nothing ends on the course list with the
   * description saved and exactly one success message, the last one, after
   * one warning per failed step.
   */
  lemma UpdateCourseCompletes(db: Db, caller: Option<Email>, name: string, post: Post)
    requires Session(db, caller) && MayEdit(db, caller, name)
    ensures var r := UpdateCourseResponse(db, caller, name, true, post);
            var s := RunBatch(db, name, post, Role(db, caller));
            && (r.page.ServerError? <==> s.Crash? || "course_descr" !in post)
            && (!r.page.ServerError? ==>
                  && r.page == Redirect(CoursesRoute)
                  && |r.messages| >= 1
                  && r.messages[|r.messages| - 1] == SuccessMsg(name + " has been updated.")
                  && AllWarnings(r.messages[..|r.messages| - 1])
                  && r.db.courses[name].description == Some(post["course_descr"]))
  {
    var r := UpdateCourseResponse(db, caller, name, true, post);
    var s := RunBatch(db, name, post, Role(db, caller));
    if !r.page.ServerError? {
      assert r.messages[..|r.messages| - 1] == s.b.messages;
      assert s.b.messages == s.b.messages[0..];
    }
  }

  /**
   * The add-user step: an unknown e-mail makes `filter(...)[0]` raise an
   * IndexError that nothing catches; a known one joins this course's users,
   * becomes the acting user, and nothing else changes.
   */
  lemma AddUserOutcome(b: Batch, name: string, post: Post)
    requires name in b.db.courses && "add_user" in post
    ensures var s := AddUserStep(b, name, post);
            var e := post["add_user"];
            && (e !in b.db.users <==> s == Crash(b, IndexError(IndexOutOfRange)))
            && (e in b.db.users ==>
                  && s.Next?
                  && s.b.messages == b.messages
                  && s.b.actorType == b.db.users[e].accountType
                  && s.b.db == b.db.(courses := s.b.db.courses)
                  && s.b.db.courses.Keys == b.db.courses.Keys
                  && s.b.db.courses[name].users == b.db.courses[name].users + {e}
                  && s.b.db.courses[name] == b.db.courses[name].(users := s.b.db.courses[name].users)
                  && (forall c :: c in b.db.courses && c != name ==> s.b.db.courses[c] == b.db.courses[c]))
  {
  }

  /**
   * The remove-section step: a number this course has no section with
   * makes `filter(...)[0]` raise an uncaught IndexError; otherwise exactly
   * that section is deleted and nothing else changes.
   */
  lemma RemoveSectionOutcome(b: Batch, name: string, post: Post)
    requires name in b.db.courses && "remove_section" in post
    ensures var s := RemoveSectionStep(b, name, post);
            var k := SectionKey(name, post["remove_section"]);
            && (k !in b.db.sections <==> s == Crash(b, IndexError(IndexOutOfRange)))
            && (k in b.db.sections ==>
                  && s.Next?
                  && s.b.messages == b.messages && s.b.actorType == b.actorType
                  && s.b.db == b.db.(sections := s.b.db.sections)
                  && s.b.db.sections.Keys == b.db.sections.Keys - {k}
                  && (forall k' :: k' in s.b.db.sections ==> s.b.db.sections[k'] == b.db.sections[k']))
  {
  }

  /**
   * Removing a user takes them out of the course and clears the user of
   * exactly this course's sections they held; the removed account becomes
   * the acting user.
   */
  lemma RemoveUserClearsSections(b: Batch, name: string, post: Post)
    requires name in b.db.courses && "remove_user" in post && post["remove_user"] in b.db.users
    ensures var s := RemoveUserStep(b, name, post);
            var e := post["remove_user"];
            && s.Next?
            && s.b.db.courses[name].users == b.db.courses[name].users - {e}
            && s.b.actorType == b.db.users[e].accountType
            && s.b.db.sections.Keys == b.db.sections.Keys
            && (forall k :: k in b.db.sections ==>
                  s.b.db.sections[k].user ==
                    if b.db.sections[k].course == name && b.db.sections[k].user == Some(e) then None
                    else b.db.sections[k].user)
  {
  }

  /**
   * The add-section step: a missing field is one "Invalid section request";
   * with every field present and both times parsed, the section is added
   * exactly when create_section accepts it. Of create_section's refusals an
   * empty number or an unknown day pattern is a TypeError, which nothing
   * catches; a wrongly sized number (tested before the days), reversed
   * times or a taken number become the warning.
   */
  lemma AddSectionOutcome(b: Batch, name: string, post: Post)
    requires name in b.db.courses && "section_type" in post
    ensures var s := AddSectionStep(b, name, post);
            && (("section_number" !in post || "section_start" !in post || "section_end" !in post || "section_days" !in post) ==>
                  s == Next(b.(messages := b.messages + [WarningMsg(InvalidSectionRequest)])))
            && ("section_number" in post && "section_start" in post && "section_end" in post && "section_days" in post
                && ParseClock(post["section_start"]).Success? && ParseClock(post["section_end"]).Success? ==>
                  var number, days := post["section_number"], post["section_days"];
                  var start, end := ParseClock(post["section_start"]).value, ParseClock(post["section_end"]).value;
                  var created := AfterCreateSection(b.db, Str(number), CourseRef(name), TimeArg(start), TimeArg(end),
                                                    Str(days), post["section_type"]);
                  && (s.Crash? <==> number == "" || (|number| == 3 && days !in MeetingDayCodes))
                  && (created.result.Success? ==> s == Next(b.(db := created.db)))
                  && (s.Next? && s.b.messages == b.messages <==> created.result.Success?)
                  && (|number| == 3 && days in MeetingDayCodes && start >= end ==>
                        s == Next(b.(messages := b.messages + [WarningMsg(EndsBeforeStart)]))))
  {
  }

  /**
   * The assignment checks in their order; the first that fails reports its
   * message and leaves every section as it was.
   */
  lemma AssignCheckOrder(b: Batch, name: string, post: Post)
    requires name in b.db.courses && "to_sec_num" in post
    ensures "to_sec_user" !in post ==> AssignStep(b, name, post) == Warned(b, AssignNeedsUser)
    ensures "to_sec_user" in post && "remove_section" in post && post["remove_section"] == post["to_sec_num"] ==>
      AssignStep(b, name, post) == Warned(b, AssignRemovedSection)
    ensures "to_sec_user" in post && !("remove_section" in post && post["remove_section"] == post["to_sec_num"])
            && "remove_user" in post && post["remove_user"] == post["to_sec_user"] ==>
      AssignStep(b, name, post) == Warned(b, AssignRemovedUser)
    ensures "to_sec_user" in post && !("remove_section" in post && post["remove_section"] == post["to_sec_num"])
            && !("remove_user" in post && post["remove_user"] == post["to_sec_user"])
            && (SectionKey(name, post["to_sec_num"]) !in b.db.sections || post["to_sec_user"] !in b.db.users) ==>
      AssignStep(b, name, post) == Crash(b, IndexError(IndexOutOfRange))
    ensures "to_sec_user" in post && !("remove_section" in post && post["remove_section"] == post["to_sec_num"])
            && !("remove_user" in post && post["remove_user"] == post["to_sec_user"])
            && SectionKey(name, post["to_sec_num"]) in b.db.sections && post["to_sec_user"] in b.db.users
            && post["to_sec_user"] !in b.db.courses[name].users ==>
      AssignStep(b, name, post) == Warned(b, AssignNotMember)
    ensures "to_sec_user" in post && !("remove_section" in post && post["remove_section"] == post["to_sec_num"])
            && !("remove_user" in post && post["remove_user"] == post["to_sec_user"])
            && SectionKey(name, post["to_sec_num"]) in b.db.sections && post["to_sec_user"] in b.db.users
            && post["to_sec_user"] in b.db.courses[name].users
            && b.db.sections[SectionKey(name, post["to_sec_num"])].sectionType == Lecture
            && b.db.users[post["to_sec_user"]].accountType != Instructor ==>
      AssignStep(b, name, post) == Warned(b, LectureNeedsInstructor)
    ensures !AssignAllowed(b.db, name, post) ==> AssignStep(b, name, post).b.db == b.db
  {
  }

  /**
   * The assignment is made exactly when every check passes, stated without
   * their order; it then sets that section's user and nothing else.
   */
  lemma AssignMadeWhenAllowed(b: Batch, name: string, post: Post)
    requires name in b.db.courses
    ensures var s := AssignStep(b, name, post);
            "to_sec_num" in post && s.Next? && s.b.messages == b.messages <==> AssignAllowed(b.db, name, post)
    ensures AssignAllowed(b.db, name, post) ==>
      AssignStep(b, name, post)
        == Next(b.(db := b.db.(sections := b.db.sections[SectionKey(name, post["to_sec_num"]) :=
                  b.db.sections[SectionKey(name, post["to_sec_num"])].(user := Some(post["to_sec_user"]))])))
  {
  }

  /**
   * Unassigning a section the course no longer has is ignored; otherwise
   * that section, and only it, is left without a user.
   */
  lemma UnassignOutcome(b: Batch, name: string, post: Post)
    requires name in b.db.courses && "from_sec_num" in post
    ensures var s := UnassignStep(b, name, post);
            var k := SectionKey(name, post["from_sec_num"]);
            && (k !in b.db.sections ==> s == Next(b))
            && (k in b.db.sections ==>
                  && s.b.db.sections.Keys == b.db.sections.Keys
                  && s.b.db.sections[k] == b.db.sections[k].(user := None)
                  && (forall j :: j in b.db.sections && j != k ==> s.b.db.sections[j] == b.db.sections[j]))
  {
  }

  /** The fields only the assignment steps read. */
  const AssignFields: set<string> := {"to_sec_num", "to_sec_user", "from_sec_num"}

  /**
   * The acting-user quirk: when a Supervisor's POST adds or removes a TA
   * (the last of those lookups wins), the role test before the assignment
   * steps sees that TA, so the request behaves as if it had no assignment
   * fields at all.
   */
  lemma {:induction false} TaActorSkipsAssignments(db: Db, caller: Option<Email>, name: string, post: Post)
    requires Session(db, caller) && MayEdit(db, caller, name) && Role(db, caller) == Supervisor
    requires "remove_user" in post ==>
      post["remove_user"] in db.users && db.users[post["remove_user"]].accountType == TeachingAssistant
    requires "remove_user" !in post ==>
      "add_user" in post && post["add_user"] in db.users && db.users[post["add_user"]].accountType == TeachingAssistant
    ensures UpdateCourseResponse(db, caller, name, true, post)
         == UpdateCourseResponse(db, caller, name, true, post - AssignFields)
  {
    var q := post - AssignFields;
    TaBatchIgnoresAssignFields(db, name, post);
    assert "course_descr" in post <==> "course_descr" in q;
  }

  lemma TaBatchIgnoresAssignFields(db: Db, name: string, post: Post)
    requires name in db.courses
    requires "remove_user" in post ==>
      post["remove_user"] in db.users && db.users[post["remove_user"]].accountType == TeachingAssistant
    requires "remove_user" !in post ==>
      "add_user" in post && post["add_user"] in db.users && db.users[post["add_user"]].accountType == TeachingAssistant
    ensures RunBatch(db, name, post, Supervisor) == RunBatch(db, name, post - AssignFields, Supervisor)
  {
    var b0 := Batch(db, [], Supervisor);
    SupervisorStepsIgnoreAssignFields(b0, name, post);
    if SupervisorSteps(b0, name, post).Next? {
      ActorAfterSupervisorSteps(b0, name, post);
    }
  }

  /** Once the Supervisor steps have run, the acting user is the last account added or removed. */
  lemma ActorAfterSupervisorSteps(b: Batch, name: string, post: Post)
    requires name in b.db.courses && SupervisorSteps(b, name, post).Next?
    ensures var actor := SupervisorSteps(b, name, post).b.actorType;
            && ("remove_user" in post ==> actor == b.db.users[post["remove_user"]].accountType)
            && ("remove_user" !in post && "add_user" in post ==> actor == b.db.users[post["add_user"]].accountType)
            && ("remove_user" !in post && "add_user" !in post ==> actor == b.actorType)
  {
    var b1 := AddUserStep(b, name, post).b;
    var b2 := RemoveUserStep(b1, name, post).b;
    var b3 := AddSectionStep(b2, name, post).b;
    assert RemoveSectionStep(b3, name, post).b.actorType == b2.actorType;
  }

  lemma SupervisorStepsIgnoreAssignFields(b: Batch, name: string, post: Post)
    requires name in b.db.courses
    ensures SupervisorSteps(b, name, post) == SupervisorSteps(b, name, post - AssignFields)
  {
    var q := post - AssignFields;
    assert AddUserStep(b, name, post) == AddUserStep(b, name, q) by {
      assert "add_user" in post <==> "add_user" in q;
    }
    var b1 := AddUserStep(b, name, post).b;
    assert RemoveUserStep(b1, name, post) == RemoveUserStep(b1, name, q) by {
      assert "remove_user" in post <==> "remove_user" in q;
    }
    var b2 := RemoveUserStep(b1, name, post).b;
    AddSectionStepIgnoresAssignFields(b2, name, post);
    var b3 := AddSectionStep(b2, name, post).b;
    assert RemoveSectionStep(b3, name, post) == RemoveSectionStep(b3, name, q) by {
      assert "remove_section" in post <==> "remove_section" in q;
    }
  }

  lemma AddSectionStepIgnoresAssignFields(b: Batch, name: string, post: Post)
    requires name in b.db.courses
    ensures AddSectionStep(b, name, post) == AddSectionStep(b, name, post - AssignFields)
  {
    var q := post - AssignFields;
    assert "section_type" in post <==> "section_type" in q;
    assert "section_number" in post <==> "section_number" in q;
    assert "section_start" in post <==> "section_start" in q;
    assert "section_end" in post <==> "section_end" in q;
    assert "section_days" in post <==> "section_days" in q;
  }

  /**
   * An Instructor's POST never runs the Supervisor steps: the course keeps
   * its users and no section is added or removed, whatever the form holds.
   */
  lemma InstructorSkipsSupervisorSteps(db: Db, caller: Option<Email>, name: string, post: Post)
    requires Session(db, caller) && MayEdit(db, caller, name) && Role(db, caller) == Instructor
    ensures var s := RunBatch(db, name, post, Instructor);
            && s.b.db.courses == db.courses
            && s.b.db.sections.Keys == db.sections.Keys
  {
  }

  // ---------------------------------------------------------------- invariant

  lemma CourseUsersKeepInvariant(db: Db, name: string, users: set<Email>)
    requires Invariant(db) && name in db.courses && users <= db.users.Keys
    ensures Invariant(WithCourseUsers(db, name, users))
  {
    var r := WithCourseUsers(db, name, users);
    assert CoursesOk(r) by {
      forall n | n in r.courses ensures r.courses[n].users <= r.users.Keys {
        assert db.courses[n].users <= db.users.Keys;
      }
    }
    assert SectionsOk(r) by {
      forall k | k in r.sections ensures k.course in r.courses {
        assert k.course in db.courses;
      }
    }
  }

  lemma ClearedSectionsKeepInvariant(db: Db, name: string, email: Email)
    requires Invariant(db)
    ensures Invariant(db.(sections := ClearedSections(db.sections, name, email)))
  {
    var r := db.(sections := ClearedSections(db.sections, name, email));
    assert SectionsOk(r) by {
      forall k | k in r.sections
        ensures r.sections[k].Key() == k && k.course in r.courses
        ensures r.sections[k].user.Some? ==> r.sections[k].user.value in r.users
      {
        assert db.sections[k].Key() == k && k.course in db.courses;
        assert db.sections[k].user.Some? ==> db.sections[k].user.value in db.users;
      }
    }
  }

  lemma SectionUserKeepsInvariant(db: Db, k: SectionKey, user: Option<Email>)
    requires Invariant(db) && k in db.sections && (user.Some? ==> user.value in db.users)
    ensures Invariant(db.(sections := db.sections[k := db.sections[k].(user := user)]))
  {
    var r := db.(sections := db.sections[k := db.sections[k].(user := user)]);
    assert UsersOk(r) && CoursesOk(r) && SkillsOk(r);
    assert SectionsOk(r) by {
      forall j | j in r.sections
        ensures r.sections[j].Key() == j && j.course in r.courses && |j.number| == 3
        ensures r.sections[j].start < r.sections[j].end && r.sections[j].days in MeetingDayCodes
        ensures r.sections[j].user.Some? ==> r.sections[j].user.value in r.users
      {
        var was := db.sections[j];
        assert was.Key() == j && j.course in db.courses && |j.number| == 3;
        assert was.start < was.end && was.days in MeetingDayCodes;
        assert was.user.Some? ==> was.user.value in db.users;
        assert r.sections[j] == if j == k then was.(user := user) else was;
      }
    }
  }

  lemma AddUserStepKeepsInvariant(b: Batch, name: string, post: Post)
    requires Invariant(b.db) && name in b.db.courses
    ensures Invariant(AddUserStep(b, name, post).b.db)
  {
    if "add_user" in post && post["add_user"] in b.db.users {
      CourseUsersKeepInvariant(b.db, name, b.db.courses[name].users + {post["add_user"]});
    }
  }

  lemma RemoveUserStepKeepsInvariant(b: Batch, name: string, post: Post)
    requires Invariant(b.db) && name in b.db.courses
    ensures Invariant(RemoveUserStep(b, name, post).b.db)
  {
    if "remove_user" in post && post["remove_user"] in b.db.users {
      var e := post["remove_user"];
      var left := WithCourseUsers(b.db, name, b.db.courses[name].users - {e});
      CourseUsersKeepInvariant(b.db, name, b.db.courses[name].users - {e});
      ClearedSectionsKeepInvariant(left, name, e);
    }
  }

  lemma AddSectionStepKeepsInvariant(b: Batch, name: string, post: Post)
    requires Invariant(b.db) && name in b.db.courses
    ensures Invariant(AddSectionStep(b, name, post).b.db)
  {
    if "section_type" in post && "section_number" in post && "section_start" in post && "section_end" in post
       && "section_days" in post && ParseClock(post["section_start"]).Success? && ParseClock(post["section_end"]).Success? {
      CreateSectionKeepsInvariant(b.db, Str(post["section_number"]), CourseRef(name),
        TimeArg(ParseClock(post["section_start"]).value), TimeArg(ParseClock(post["section_end"]).value),
        Str(post["section_days"]), post["section_type"]);
    }
  }

  lemma RemoveSectionStepKeepsInvariant(b: Batch, name: string, post: Post)
    requires Invariant(b.db) && name in b.db.courses
    ensures Invariant(RemoveSectionStep(b, name, post).b.db)
  {
  }

  lemma AssignStepKeepsInvariant(b: Batch, name: string, post: Post)
    requires Invariant(b.db) && name in b.db.courses
    ensures Invariant(AssignStep(b, name, post).b.db)
  {
    if AssignAllowed(b.db, name, post) {
      AssignMadeWhenAllowed(b, name, post);
      SectionUserKeepsInvariant(b.db, SectionKey(name, post["to_sec_num"]), Some(post["to_sec_user"]));
    } else if "to_sec_num" in post {
      AssignCheckOrder(b, name, post);
    }
  }

  lemma UnassignStepKeepsInvariant(b: Batch, name: string, post: Post)
    requires Invariant(b.db) && name in b.db.courses
    ensures Invariant(UnassignStep(b, name, post).b.db)
  {
    if "from_sec_num" in post && SectionKey(name, post["from_sec_num"]) in b.db.sections {
      SectionUserKeepsInvariant(b.db, SectionKey(name, post["from_sec_num"]), None);
    }
  }

  lemma FinishKeepsInvariant(s: Step, name: string, post: Post)
    requires Invariant(s.b.db) && name in s.b.db.courses
    ensures Invariant(Finish(s, name, post).db)
  {
    var db := Finish(s, name, post).db;
    assert SectionsOk(db) by {
      forall k | k in db.sections ensures k.course in db.courses {
        assert k.course in s.b.db.courses;
      }
    }
  }

  // ---------------------------------------------------------------- the handler on a store

  /** The loop of views.py:211-214: each section of the course held by `email` is saved without its user. */
  method ClearSectionUsers(store: Store, name: string, email: Email)
    modifies store
    ensures store.sections == ClearedSections(old(store.sections), name, email)
    ensures store.users == old(store.users) && store.courses == old(store.courses) && store.skills == old(store.skills)
  {
    ghost var before := store.sections;
    var pending := set k | k in store.sections && store.sections[k].course == name && store.sections[k].user == Some(email);
    while pending != {}
      invariant pending <= before.Keys
      invariant forall k :: k in pending ==> before[k].course == name && before[k].user == Some(email)
      invariant store.sections.Keys == before.Keys
      invariant forall k :: k in before ==>
        store.sections[k] == if k !in pending && before[k].course == name && before[k].user == Some(email)
                             then before[k].(user := None) else before[k]
      invariant store.users == old(store.users) && store.courses == old(store.courses) && store.skills == old(store.skills)
      decreases pending
    {
      var k :| k in pending;
      store.sections := store.sections[k := store.sections[k].(user := None)];
      pending := pending - {k};
    }
    assert store.sections == ClearedSections(before, name, email);
  }

  method RunAddUser(store: Store, name: string, post: Post, b: Batch) returns (s: Step)
    requires store.Valid() && b.db == store.View() && name in store.courses
    modifies store
    ensures store.Valid() && s == AddUserStep(b, name, post) && store.View() == s.b.db
  {
    AddUserStepKeepsInvariant(b, name, post);
    if "add_user" !in post {
      return Next(b);
    }
    var e := post["add_user"];
    if e !in store.users {
      return Crash(b, IndexError(IndexOutOfRange));
    }
    store.courses := store.courses[name := store.courses[name].(users := store.courses[name].users + {e})];
    s := Next(Batch(store.View(), b.messages, store.users[e].accountType));
  }

  method RunRemoveUser(store: Store, name: string, post: Post, b: Batch) returns (s: Step)
    requires store.Valid() && b.db == store.View() && name in store.courses
    modifies store
    ensures store.Valid() && s == RemoveUserStep(b, name, post) && store.View() == s.b.db
  {
    RemoveUserStepKeepsInvariant(b, name, post);
    if "remove_user" !in post {
      return Next(b);
    }
    var e := post["remove_user"];
    if e !in store.users {
      return Crash(b, IndexError(IndexOutOfRange));
    }
    store.courses := store.courses[name := store.courses[name].(users := store.courses[name].users - {e})];
    ClearSectionUsers(store, name, e);
    s := Next(Batch(store.View(), b.messages, store.users[e].accountType));
  }

  method RunAddSection(store: Store, name: string, post: Post, b: Batch) returns (s: Step)
    requires store.Valid() && b.db == store.View() && name in store.courses
    modifies store
    ensures store.Valid() && s == AddSectionStep(b, name, post) && store.View() == s.b.db
  {
    if "section_type" !in post {
      return Next(b);
    }
    if "section_number" !in post || "section_start" !in post || "section_end" !in post || "section_days" !in post {
      return Warned(b, InvalidSectionRequest);
    }
    var start := ParseClock(post["section_start"]);
    if start.Failure? {
      return Warned(b, start.error);
    }
    var end := ParseClock(post["section_end"]);
    if end.Failure? {
      return Warned(b, end.error);
    }
    var created := store.CreateSection(Str(post["section_number"]), CourseRef(name), TimeArg(start.value),
                                       TimeArg(end.value), Str(post["section_days"]), post["section_type"]);
    match created
    case Success(_) => s := Next(b.(db := store.View()));
    case Failure(ValueError(m)) => s := Warned(b, m);
    case Failure(e) => s := Crash(b, e);
  }

  method RunRemoveSection(store: Store, name: string, post: Post, b: Batch) returns (s: Step)
    requires store.Valid() && b.db == store.View() && name in store.courses
    modifies store
    ensures store.Valid() && s == RemoveSectionStep(b, name, post) && store.View() == s.b.db
  {
    RemoveSectionStepKeepsInvariant(b, name, post);
    if "remove_section" !in post {
      return Next(b);
    }
    var k := SectionKey(name, post["remove_section"]);
    if k !in store.sections {
      return Crash(b, IndexError(IndexOutOfRange));
    }
    store.sections := store.sections - {k};
    s := Next(b.(db := store.View()));
  }

  method RunAssign(store: Store, name: string, post: Post, b: Batch) returns (s: Step)
    requires store.Valid() && b.db == store.View() && name in store.courses
    modifies store
    ensures store.Valid() && s == AssignStep(b, name, post) && store.View() == s.b.db
  {
    s := Next(b);
    if "to_sec_num" in post {
      if "to_sec_user" !in post {
        s := Warned(b, AssignNeedsUser);
      } else if "remove_section" in post && post["remove_section"] == post["to_sec_num"] {
        s := Warned(b, AssignRemovedSection);
      } else if "remove_user" in post && post["remove_user"] == post["to_sec_user"] {
        s := Warned(b, AssignRemovedUser);
      } else {
        var k := SectionKey(name, post["to_sec_num"]);
        var e := post["to_sec_user"];
        if k !in store.sections || e !in store.users {
          s := Crash(b, IndexError(IndexOutOfRange));
        } else if e !in store.courses[name].users {
          s := Warned(b, AssignNotMember);
        } else if store.sections[k].sectionType == Lecture && store.users[e].accountType != Instructor {
          s := Warned(b, LectureNeedsInstructor);
        } else {
          store.sections := store.sections[k := store.sections[k].(user := Some(e))];
          s := Next(b.(db := store.View()));
        }
      }
    }
    assert s == AssignStep(b, name, post);
    AssignStepKeepsInvariant(b, name, post);
  }

  method RunUnassign(store: Store, name: string, post: Post, b: Batch) returns (s: Step)
    requires store.Valid() && b.db == store.View() && name in store.courses
    modifies store
    ensures store.Valid() && s == UnassignStep(b, name, post) && store.View() == s.b.db
  {
    UnassignStepKeepsInvariant(b, name, post);
    if "from_sec_num" in post {
      var k := SectionKey(name, post["from_sec_num"]);
      if k in store.sections {
        store.sections := store.sections[k := store.sections[k].(user := None)];
      }
    }
    s := Next(b.(db := store.View()));
  }

  method RunSupervisorSteps(store: Store, name: string, post: Post, b: Batch) returns (s: Step)
    requires store.Valid() && b.db == store.View() && name in store.courses
    modifies store
    ensures store.Valid() && s == SupervisorSteps(b, name, post) && store.View() == s.b.db
  {
    s := RunAddUser(store, name, post, b);
    if s.Next? {
      s := RunRemoveUser(store, name, post, s.b);
    }
    if s.Next? {
      s := RunAddSection(store, name, post, s.b);
    }
    if s.Next? {
      s := RunRemoveSection(store, name, post, s.b);
    }
  }

  method RunStaffSteps(store: Store, name: string, post: Post, b: Batch) returns (s: Step)
    requires store.Valid() && b.db == store.View() && name in store.courses
    modifies store
    ensures store.Valid() && s == StaffSteps(b, name, post) && store.View() == s.b.db
  {
    s := RunAssign(store, name, post, b);
    if s.Next? {
      s := RunUnassign(store, name, post, s.b);
    }
  }

  /** Saves the description and closes the batch, unless a step raised or the field is missing. */
  method RunFinish(store: Store, name: string, post: Post, s: Step) returns (r: Response)
    requires store.Valid() && s.b.db == store.View() && name in store.courses
    modifies store
    ensures store.Valid() && r == Finish(s, name, post) && store.View() == r.db
  {
    FinishKeepsInvariant(s, name, post);
    if s.Crash? {
      return Response(s.b.db, s.b.messages, ServerError(s.exc));
    }
    if "course_descr" !in post {
      return Response(s.b.db, s.b.messages, ServerError(KeyError("course_descr")));
    }
    store.courses := store.courses[name := store.courses[name].(description := Some(post["course_descr"]))];
    r := Response(store.View(), s.b.messages + [SuccessMsg(name + " has been updated.")], Redirect(CoursesRoute));
  }

  method UpdateCourse(store: Store, caller: Option<Email>, name: string, isPost: bool, post: Post) returns (r: Response)
    requires store.Valid() && Session(store.View(), caller)
    modifies store
    ensures store.Valid()
    ensures r == UpdateCourseResponse(old(store.View()), caller, name, isPost, post) && store.View() == r.db
  {
    var db := store.View();
    if caller.None? {
      return LoginRedirect(db);
    }
    if name !in store.courses {
      return Warn(db, CourseNotFound, CoursesRoute);
    }
    var role := store.users[caller.value].accountType;
    if role == TeachingAssistant || (role == Instructor && caller.value !in store.courses[name].users) {
      return Warn(db, AccessDenied, CoursesRoute);
    }
    if !isPost {
      return Response(db, [], Render(UpdateCourseTemplate));
    }
    assert UpdateCourseResponse(db, caller, name, isPost, post) == Finish(RunBatch(db, name, post, role), name, post);
    var s := RunBatchOn(store, name, post, role);
    r := RunFinish(store, name, post, s);
  }

  /** The steps of an allowed POST, run against the store. */
  method RunBatchOn(store: Store, name: string, post: Post, role: string) returns (s: Step)
    requires store.Valid() && name in store.courses
    modifies store
    ensures store.Valid() && s == RunBatch(old(store.View()), name, post, role) && store.View() == s.b.db
  {
    s := RunOpeningSteps(store, name, post, role);
    if s.Next? && (s.b.actorType == Supervisor || s.b.actorType == Instructor) {
      s := RunStaffSteps(store, name, post, s.b);
    }
  }

  /** The Supervisor steps, which only a Supervisor's POST runs. */
  method RunOpeningSteps(store: Store, name: string, post: Post, role: string) returns (s: Step)
    requires store.Valid() && name in store.courses
    modifies store
    ensures store.Valid() && store.View() == s.b.db && name in store.courses
    ensures var b0 := Batch(old(store.View()), [], role);
            s == if role == Supervisor then SupervisorSteps(b0, name, post) else Next(b0)
  {
    var b0 := Batch(store.View(), [], role);
    s := Next(b0);
    if role == Supervisor {
      s := RunSupervisorSteps(store, name, post, b0);
    }
  }
}
