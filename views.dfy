/**
 * The request handlers of scheduler_app/views.py that manage the catalogue
 * of courses and accounts: add_course, delete_course, add_user, delete_user
 * and user_info. Each handler is a function from the store, the logged-in
 * user and the POST fields to a `Response` (the store afterwards, the flash
 * messages, and the page: a redirect, a rendered template, or an uncaught
 * exception); a method of the same name runs it against a `Store`.
 *
 * Django commits every `save()` as it happens, so a handler that raises
 * midway leaves behind what it had already saved.
 */
module Views {
  import opened Wrappers
  import opened PyBuiltins
  import opened Validators
  import opened Models

  /** `messages.error`, `messages.warning` and `messages.success`. */
  datatype Message = ErrorMsg(text: string) | WarningMsg(text: string) | SuccessMsg(text: string)

  datatype Page = Redirect(route: string) | Render(template: string) | ServerError(exc: Exception)

  datatype Response = Response(db: Db, messages: seq<Message>, page: Page)

  /** `request.POST`: field name to value. */
  type Post = map<string, string>

  const LoginRoute := "scheduler-login"
  const HomeRoute := "scheduler-home"
  const CoursesRoute := "scheduler-courses"
  const UsersRoute := "scheduler-users"

  const AddCourseTemplate := "scheduler_app/add-course.html"
  const AddUserTemplate := "scheduler_app/add-user.html"
  const UserInfoTemplate := "scheduler_app/user-info.html"

  const LoginRequired := "You must login to access the site."
  const AccessDenied := "Access denied."
  const CourseNotFound := "Course not found."
  const UserNotFound := "User not found."
  const InvalidCourseName := "Requested course name is invalid."
  const CannotDeleteSelf := "You cannot delete yourself."
  const InfoUpdated := "Account info updated."
  const SkillAddRemoved := "Cannot add a skill that is being removed."

  /** The logged-in user, when there is one, has a row in the store. */
  predicate Session(db: Db, caller: Option<Email>) {
    caller.Some? ==> caller.value in db.users
  }

  function Role(db: Db, caller: Option<Email>): string
    requires Session(db, caller) && caller.Some?
  {
    db.users[caller.value].accountType
  }

  function LoginRedirect(db: Db): Response {
    Response(db, [ErrorMsg(LoginRequired)], Redirect(LoginRoute))
  }

  function Warn(db: Db, text: string, route: string): Response {
    Response(db, [WarningMsg(text)], Redirect(route))
  }

  /** A refusal: nothing saved, one warning or error, and a redirect. */
  predicate Refused(r: Response, db: Db, text: string) {
    r.db == db && |r.messages| == 1 && r.messages[0].text == text && r.page.Redirect?
  }

  // ---------------------------------------------------------------- add_course

  function AddCourseResponse(db: Db, caller: Option<Email>, isPost: bool, post: Post): Response
    requires Session(db, caller)
  {
    if caller.None? then LoginRedirect(db)
    else if Role(db, caller) != Supervisor then Warn(db, AccessDenied, CoursesRoute)
    else if !isPost then Response(db, [], Render(AddCourseTemplate))
    else if "course_dpt" !in post then Response(db, [], ServerError(KeyError("course_dpt")))
    else
      var dpt := Strip(post["course_dpt"]);
      if !IsAlpha(dpt) then Response(db, [WarningMsg(InvalidCourseName)], Render(AddCourseTemplate))
      else if "course_num" !in post then Response(db, [], ServerError(KeyError("course_num")))
      else
        var num := Strip(post["course_num"]);
        if !IsDigit(num) then Response(db, [WarningMsg(InvalidCourseName)], Render(AddCourseTemplate))
        else if "course_descr" !in post then Response(db, [], ServerError(KeyError("course_descr")))
        else
          var created := AfterCreateCourse(db, dpt, num, Some(post["course_descr"]));
          if created.result.Success? then
            Response(created.db, [SuccessMsg(created.result.value.name + " has been added.")], Redirect(CoursesRoute))
          else Warn(db, dpt + num + " already exists.", CoursesRoute)
  }

  /**
   * A Supervisor's complete form adds a course exactly when the trimmed
   * department is alphabetic, the trimmed number is all digits and the
   * upper-cased name is new; the course keeps the trimmed parts and the
   * message names it. A bad name and a duplicate are refused with their
   * own messages, the duplicate quoted as typed.
   */
  lemma AddCourseOutcome(db: Db, caller: Option<Email>, post: Post)
    requires Session(db, caller) && caller.Some? && Role(db, caller) == Supervisor
    requires "course_dpt" in post && "course_num" in post && "course_descr" in post
    ensures var r := AddCourseResponse(db, caller, true, post);
            var dpt, num := Strip(post["course_dpt"]), Strip(post["course_num"]);
            && (r.db != db <==> IsAlpha(dpt) && IsDigit(num) && Upper(dpt + num) !in db.courses)
            && (r.db != db ==>
                  && r.db.courses == db.courses[Upper(dpt + num) :=
                       Course(Upper(dpt + num), dpt, num, Some(post["course_descr"]), None, {})]
                  && r.messages == [SuccessMsg(Upper(dpt + num) + " has been added.")])
            && (!(IsAlpha(dpt) && IsDigit(num)) ==> r.messages == [WarningMsg(InvalidCourseName)])
            && (IsAlpha(dpt) && IsDigit(num) && Upper(dpt + num) in db.courses ==>
                  r.messages == [WarningMsg(dpt + num + " already exists.")])
  {
    var dpt, num := Strip(post["course_dpt"]), Strip(post["course_num"]);
    if IsAlpha(dpt) && IsDigit(num) && Upper(dpt + num) !in db.courses {
      var r := AddCourseResponse(db, caller, true, post);
      assert Upper(dpt + num) in r.db.courses;
    }
  }

  lemma AddCourseKeepsInvariant(db: Db, caller: Option<Email>, isPost: bool, post: Post)
    requires Invariant(db) && Session(db, caller)
    ensures Invariant(AddCourseResponse(db, caller, isPost, post).db)
  {
    if caller.Some? && Role(db, caller) == Supervisor && isPost
       && "course_dpt" in post && "course_num" in post && "course_descr" in post {
      CreateCourseKeepsInvariant(db, Strip(post["course_dpt"]), Strip(post["course_num"]), Some(post["course_descr"]));
      AddCourseSaves(db, caller, post);
    }
  }

  /** A Supervisor's complete form leaves the store as `create_course` left it, or untouched. */
  lemma AddCourseSaves(db: Db, caller: Option<Email>, post: Post)
    requires Session(db, caller) && caller.Some? && Role(db, caller) == Supervisor
    requires "course_dpt" in post && "course_num" in post && "course_descr" in post
    ensures var r := AddCourseResponse(db, caller, true, post);
            r.db == db || r.db == AfterCreateCourse(db, Strip(post["course_dpt"]), Strip(post["course_num"]),
                                                    Some(post["course_descr"])).db
  {
  }

  // ---------------------------------------------------------------- delete_course

  function DeleteCourseResponse(db: Db, caller: Option<Email>, name: string): Response
    requires Session(db, caller)
  {
    if caller.None? then LoginRedirect(db)
    else if Role(db, caller) != Supervisor then Warn(db, AccessDenied, CoursesRoute)
    else if name !in db.courses then Warn(db, CourseNotFound, CoursesRoute)
    else Response(AfterDeleteCourse(db, name), [SuccessMsg(name + " has been deleted.")], Redirect(CoursesRoute))
  }

  /** A Supervisor deletes an existing course together with all of its sections; nobody else deletes anything. */
  lemma DeleteCourseOutcome(db: Db, caller: Option<Email>, name: string)
    requires Session(db, caller)
    ensures var r := DeleteCourseResponse(db, caller, name);
            && (r.db != db ==> caller.Some? && Role(db, caller) == Supervisor)
            && (caller.Some? && Role(db, caller) == Supervisor && name in db.courses ==>
                  && name !in r.db.courses
                  && (forall k :: k in r.db.sections ==> k.course != name)
                  && r.messages == [SuccessMsg(name + " has been deleted.")])
            && (caller.Some? && Role(db, caller) == Supervisor && name !in db.courses ==> Refused(r, db, CourseNotFound))
  {
  }

  // ---------------------------------------------------------------- add_user

  function AddUserResponse(db: Db, caller: Option<Email>, isPost: bool, post: Post): Response
    requires Session(db, caller)
  {
    if caller.None? then LoginRedirect(db)
    else if Role(db, caller) != Supervisor then Warn(db, AccessDenied, UsersRoute)
    else if !isPost then Response(db, [], Render(AddUserTemplate))
    else if "email" !in post then Response(db, [], ServerError(KeyError("email")))
    else if "password" !in post then Response(db, [], ServerError(KeyError("password")))
    else if "type" !in post then Response(db, [], ServerError(KeyError("type")))
    else
      var email := Strip(post["email"]);
      var created := AfterCreateUser(db, email, post["type"]);
      match created.result
      case Success(user) => Response(created.db, [SuccessMsg(user.email + " has been added.")], Redirect(UsersRoute))
      case Failure(IntegrityError) => Warn(db, email + " already exists.", UsersRoute)
      case Failure(_) => Warn(db, email + " is not a valid email.", UsersRoute)
  }

  /**
   * A Supervisor's form adds an account exactly when the trimmed address
   * matches the e-mail pattern and its lower-case form is new; the account
   * is stored and announced in lower case, while both refusals quote the
   * address as typed (trimmed).
   */
  lemma AddUserOutcome(db: Db, caller: Option<Email>, post: Post)
    requires Session(db, caller) && caller.Some? && Role(db, caller) == Supervisor
    requires "email" in post && "password" in post && "type" in post
    ensures var r := AddUserResponse(db, caller, true, post);
            var email := Strip(post["email"]);
            && (r.db != db <==> FullMatch(email) && Lower(email) !in db.users)
            && (r.db != db ==>
                  && r.db.users == db.users[Lower(email) := User(Lower(email), post["type"], BlankContact)]
                  && r.messages == [SuccessMsg(Lower(email) + " has been added.")])
            && (!FullMatch(email) ==> Refused(r, db, email + " is not a valid email."))
            && (FullMatch(email) && Lower(email) in db.users ==> Refused(r, db, email + " already exists."))
  {
    var email := Strip(post["email"]);
    if FullMatch(email) && Lower(email) !in db.users {
      assert Lower(email) in AddUserResponse(db, caller, true, post).db.users;
    }
  }

  lemma AddUserKeepsInvariant(db: Db, caller: Option<Email>, isPost: bool, post: Post)
    requires Invariant(db) && Session(db, caller)
    ensures Invariant(AddUserResponse(db, caller, isPost, post).db)
  {
    if caller.Some? && Role(db, caller) == Supervisor && isPost && "email" in post && "password" in post && "type" in post {
      CreateUserKeepsInvariant(db, Strip(post["email"]), post["type"]);
      AddUserSaves(db, caller, post);
    }
  }

  /** A Supervisor's complete form leaves the store as `create_user` left it. */
  lemma AddUserSaves(db: Db, caller: Option<Email>, post: Post)
    requires Session(db, caller) && caller.Some? && Role(db, caller) == Supervisor
    requires "email" in post && "password" in post && "type" in post
    ensures AddUserResponse(db, caller, true, post).db == AfterCreateUser(db, Strip(post["email"]), post["type"]).db
  {
  }

  // ---------------------------------------------------------------- delete_user

  function DeleteUserResponse(db: Db, caller: Option<Email>, email: Email): Response
    requires Session(db, caller)
  {
    if caller.None? then LoginRedirect(db)
    else if Role(db, caller) != Supervisor then Warn(db, AccessDenied, UsersRoute)
    else if email !in db.users then Warn(db, UserNotFound, UsersRoute)
    else if email == caller.value then Warn(db, CannotDeleteSelf, HomeRoute)
    else Response(AfterDeleteUser(db, email), [SuccessMsg(email + " has been deleted.")], Redirect(UsersRoute))
  }

  /**
   * Only a Supervisor deletes accounts, never their own; the deleted user
   * disappears from the store, from every course and skill, and from every
   * section, which is kept.
   */
  lemma DeleteUserOutcome(db: Db, caller: Option<Email>, email: Email)
    requires Session(db, caller)
    ensures var r := DeleteUserResponse(db, caller, email);
            && (r.db != db ==> caller.Some? && Role(db, caller) == Supervisor && email != caller.value)
            && (caller.Some? && Role(db, caller) == Supervisor && email == caller.value ==>
                  r == Warn(db, CannotDeleteSelf, HomeRoute))
            && (caller.Some? && Role(db, caller) == Supervisor && email in db.users && email != caller.value ==>
                  && r.db == AfterDeleteUser(db, email)
                  && email !in r.db.users
                  && r.db.sections.Keys == db.sections.Keys
                  && r.messages == [SuccessMsg(email + " has been deleted.")])
  {
  }

  // ---------------------------------------------------------------- user_info

  /** The contact fields of the form, in the order the handler reads them. */
  const ContactFields: seq<string> :=
    ["first_name", "last_name", "phone", "city", "state", "addr_1", "addr_2", "zipcode"]

  /** The first of `keys` the form lacks: the KeyError the handler raises. */
  function FirstMissing(keys: seq<string>, post: Post): (r: Option<string>)
    ensures r.None? <==> forall i :: 0 <= i < |keys| ==> keys[i] in post
    ensures r.Some? ==> r.value in keys && r.value !in post
  {
    if keys == [] then None
    else if keys[0] !in post then Some(keys[0])
    else FirstMissing(keys[1..], post)
  }

  predicate HasContactFields(post: Post) {
    && "first_name" in post && "last_name" in post && "phone" in post && "city" in post
    && "state" in post && "addr_1" in post && "addr_2" in post && "zipcode" in post
  }

  lemma ContactFieldsPresent(post: Post)
    ensures FirstMissing(ContactFields, post).None? <==> HasContactFields(post)
  {
    if FirstMissing(ContactFields, post).None? {
      assert forall i :: 0 <= i < |ContactFields| ==> ContactFields[i] in post;
      assert ContactFields[1] in post && ContactFields[2] in post && ContactFields[3] in post;
      assert ContactFields[4] in post && ContactFields[5] in post && ContactFields[6] in post;
      assert ContactFields[0] in post && ContactFields[7] in post;
    } else {
      var k := FirstMissing(ContactFields, post).value;
      assert k in ContactFields && k !in post;
    }
  }

  function ContactFrom(post: Post): Contact
    requires HasContactFields(post)
  {
    Contact(post["first_name"], post["last_name"], post["phone"], post["city"],
            post["state"], post["addr_1"], post["addr_2"], post["zipcode"])
  }

  function WithSkillUsers(db: Db, skill: string, users: set<Email>): Db
    requires skill in db.skills
  {
    db.(skills := db.skills[skill := db.skills[skill].(users := users)])
  }

  /**
   * The skill part of a user_info POST, after the contact fields are saved:
   * the store and the messages it adds. The lookup of an unknown skill
   * raises IndexError, which the handler reports; a failed add skips the
   * remove.
   */
  function SkillChanges(db: Db, email: Email, post: Post): (r: (Db, seq<Message>))
    requires email in db.users
    ensures r.0.users == db.users && r.0.courses == db.courses && r.0.sections == db.sections
    ensures r.0.skills.Keys == db.skills.Keys && |r.1| <= 1
  {
    if "skill-add" in post && "skill-remove" in post && post["skill-add"] == post["skill-remove"] then
      (db, [WarningMsg(SkillAddRemoved)])
    else if "skill-add" in post && post["skill-add"] !in db.skills then
      (db, [WarningMsg(IndexOutOfRange)])
    else
      var added :=
        if "skill-add" in post then WithSkillUsers(db, post["skill-add"], db.skills[post["skill-add"]].users + {email})
        else db;
      if "skill-remove" in post && post["skill-remove"] !in added.skills then (added, [WarningMsg(IndexOutOfRange)])
      else if "skill-remove" in post then
        (WithSkillUsers(added, post["skill-remove"], added.skills[post["skill-remove"]].users - {email}), [])
      else (added, [])
  }

  function UserInfoResponse(db: Db, caller: Option<Email>, email: Email, isPost: bool, post: Post): Response
    requires Session(db, caller)
  {
    if caller.None? then LoginRedirect(db)
    else if email !in db.users then Warn(db, UserNotFound, UsersRoute)
    else if Role(db, caller) != Supervisor && caller.value != email then Warn(db, AccessDenied, HomeRoute)
    else if !isPost then Response(db, [], Render(UserInfoTemplate))
    else match FirstMissing(ContactFields, post)
      case Some(key) => Response(db, [], ServerError(KeyError(key)))
      case None =>
        ContactFieldsPresent(post);
        var (after, warnings) := SkillChanges(WithContact(db, email, ContactFrom(post)), email, post);
        Response(after, [SuccessMsg(InfoUpdated)] + warnings,
                 Redirect(if caller.value == email then HomeRoute else UsersRoute))
  }

  /**
   * Who may use the page: anyone logged in on their own account, and a
   * Supervisor on any account. Anyone else is refused with nothing changed,
   * whatever the form holds.
   */
  lemma UserInfoAccess(db: Db, caller: Option<Email>, email: Email, isPost: bool, post: Post)
    requires Session(db, caller) && caller.Some? && email in db.users
    ensures var r := UserInfoResponse(db, caller, email, isPost, post);
            (Role(db, caller) != Supervisor && caller.value != email) <==> r == Warn(db, AccessDenied, HomeRoute)
  {
    var r := UserInfoResponse(db, caller, email, isPost, post);
    if !(Role(db, caller) != Supervisor && caller.value != email) && isPost {
      match FirstMissing(ContactFields, post)
      case Some(key) =>
      case None =>
        ContactFieldsPresent(post);
        assert r.messages[0] == SuccessMsg(InfoUpdated);
    }
  }

  /**
   * An allowed, complete POST saves the eight contact fields on the target
   * account alone, reports "Account info updated." first, and then at most
   * one warning from the skill part.
   */
  lemma UserInfoSavesContact(db: Db, caller: Option<Email>, email: Email, post: Post)
    requires Session(db, caller) && caller.Some? && email in db.users
    requires Role(db, caller) == Supervisor || caller.value == email
    requires HasContactFields(post)
    ensures var r := UserInfoResponse(db, caller, email, true, post);
            && r.db.users.Keys == db.users.Keys
            && r.db.users[email].contact == Contact(post["first_name"], post["last_name"], post["phone"],
                 post["city"], post["state"], post["addr_1"], post["addr_2"], post["zipcode"])
            && r.db.users[email].accountType == db.users[email].accountType
            && (forall e :: e in db.users && e != email ==> r.db.users[e] == db.users[e])
            && r.db.courses == db.courses && r.db.sections == db.sections
            && 1 <= |r.messages| <= 2 && r.messages[0] == SuccessMsg(InfoUpdated)
  {
    UserInfoStores(db, caller, email, post);
  }

  /** An allowed, complete POST saves the contact fields, then runs the skill part. */
  lemma UserInfoStores(db: Db, caller: Option<Email>, email: Email, post: Post)
    requires Session(db, caller) && caller.Some? && email in db.users
    requires Role(db, caller) == Supervisor || caller.value == email
    requires HasContactFields(post)
    ensures var r := UserInfoResponse(db, caller, email, true, post);
            var changes := SkillChanges(WithContact(db, email, ContactFrom(post)), email, post);
            && r.db == changes.0 && r.messages == [SuccessMsg(InfoUpdated)] + changes.1
            && r.page == Redirect(if caller.value == email then HomeRoute else UsersRoute)
  {
    ContactFieldsPresent(post);
  }

  /**
   * The skill part: adding and removing the same skill is refused with no
   * change; an unknown skill to add is reported and the removal is then
   * skipped; otherwise the user joins the added skill and leaves the removed
   * one.
   */
  lemma SkillChangesOutcome(db: Db, email: Email, post: Post)
    requires email in db.users
    ensures var (after, warnings) := SkillChanges(db, email, post);
            && after.users == db.users && after.courses == db.courses && after.sections == db.sections
            && after.skills.Keys == db.skills.Keys
            && ("skill-add" in post && "skill-remove" in post && post["skill-add"] == post["skill-remove"] ==>
                  after == db && warnings == [WarningMsg(SkillAddRemoved)])
            && ("skill-add" in post && post["skill-add"] !in db.skills ==>
                  after == db && |warnings| == 1)
            && ("skill-add" in post && post["skill-add"] in db.skills
                && !("skill-remove" in post && post["skill-remove"] == post["skill-add"]) ==>
                  email in after.skills[post["skill-add"]].users)
            && ("skill-remove" in post && post["skill-remove"] in db.skills
                && !("skill-add" in post && (post["skill-add"] == post["skill-remove"] || post["skill-add"] !in db.skills)) ==>
                  email !in after.skills[post["skill-remove"]].users)
            && (forall n :: (n in db.skills && !("skill-add" in post && n == post["skill-add"])
                              && !("skill-remove" in post && n == post["skill-remove"])) ==>
                  after.skills[n] == db.skills[n])
  {
  }

  lemma UserInfoKeepsInvariant(db: Db, caller: Option<Email>, email: Email, isPost: bool, post: Post)
    requires Invariant(db) && Session(db, caller)
    ensures Invariant(UserInfoResponse(db, caller, email, isPost, post).db)
  {
    ContactFieldsPresent(post);
    if caller.Some? && email in db.users && (Role(db, caller) == Supervisor || caller.value == email)
       && isPost && HasContactFields(post) {
      var saved := WithContact(db, email, ContactFrom(post));
      ContactKeepsInvariant(db, email, ContactFrom(post));
      SkillChangesKeepInvariant(saved, email, post);
      UserInfoStores(db, caller, email, post);
    }
  }

  /** The account of `email` with its contact fields replaced. */
  function WithContact(db: Db, email: Email, contact: Contact): Db
    requires email in db.users
  {
    db.(users := db.users[email := db.users[email].(contact := contact)])
  }

  lemma ContactKeepsInvariant(db: Db, email: Email, contact: Contact)
    requires Invariant(db) && email in db.users
    ensures Invariant(WithContact(db, email, contact))
  {
    var saved := WithContact(db, email, contact);
    assert UsersOk(saved);
    assert CoursesOk(saved) by {
      forall n | n in saved.courses ensures saved.courses[n].users <= saved.users.Keys {
        assert db.courses[n].users <= db.users.Keys;
      }
    }
    assert SkillsOk(saved) by {
      forall n | n in saved.skills ensures saved.skills[n].users <= saved.users.Keys {
        assert db.skills[n].users <= db.users.Keys;
      }
    }
  }

  lemma SkillChangesKeepInvariant(db: Db, email: Email, post: Post)
    requires Invariant(db) && email in db.users
    ensures Invariant(SkillChanges(db, email, post).0)
  {
    if !("skill-add" in post && "skill-remove" in post && post["skill-add"] == post["skill-remove"])
       && !("skill-add" in post && post["skill-add"] !in db.skills) {
      var added := db;
      if "skill-add" in post {
        var n := post["skill-add"];
        added := WithSkillUsers(db, n, db.skills[n].users + {email});
        SkillUsersKeepInvariant(db, n, db.skills[n].users + {email});
      }
      if "skill-remove" in post && post["skill-remove"] in added.skills {
        var n := post["skill-remove"];
        SkillUsersKeepInvariant(added, n, added.skills[n].users - {email});
      }
    }
  }

  /** Any set of existing accounts may be the users of an existing skill. */
  lemma SkillUsersKeepInvariant(db: Db, skill: string, users: set<Email>)
    requires Invariant(db) && skill in db.skills && users <= db.users.Keys
    ensures Invariant(WithSkillUsers(db, skill, users))
  {
    var after := WithSkillUsers(db, skill, users);
    assert UsersOk(after) && CoursesOk(after) && SectionsOk(after);
    assert SkillsOk(after) by {
      forall n | n in after.skills ensures after.skills[n].name == n && after.skills[n].users <= after.users.Keys {
        assert db.skills[n].name == n && db.skills[n].users <= db.users.Keys;
      }
    }
  }

  // ---------------------------------------------------------------- the handlers on a store

  method AddCourse(store: Store, caller: Option<Email>, isPost: bool, post: Post) returns (r: Response)
    requires store.Valid() && Session(store.View(), caller)
    modifies store
    ensures store.Valid()
    ensures r == AddCourseResponse(old(store.View()), caller, isPost, post) && store.View() == r.db
  {
    AddCourseKeepsInvariant(store.View(), caller, isPost, post);
    var db := store.View();
    if caller.None? {
      return LoginRedirect(db);
    }
    if store.users[caller.value].accountType != Supervisor {
      return Warn(db, AccessDenied, CoursesRoute);
    }
    if !isPost {
      return Response(db, [], Render(AddCourseTemplate));
    }
    if "course_dpt" !in post {
      return Response(db, [], ServerError(KeyError("course_dpt")));
    }
    var dpt := Strip(post["course_dpt"]);
    if !IsAlpha(dpt) {
      return Response(db, [WarningMsg(InvalidCourseName)], Render(AddCourseTemplate));
    }
    if "course_num" !in post {
      return Response(db, [], ServerError(KeyError("course_num")));
    }
    var num := Strip(post["course_num"]);
    if !IsDigit(num) {
      return Response(db, [WarningMsg(InvalidCourseName)], Render(AddCourseTemplate));
    }
    if "course_descr" !in post {
      return Response(db, [], ServerError(KeyError("course_descr")));
    }
    var created := store.CreateCourse(dpt, num, Some(post["course_descr"]));
    if created.Success? {
      r := Response(store.View(), [SuccessMsg(created.value.name + " has been added.")], Redirect(CoursesRoute));
    } else {
      r := Warn(store.View(), dpt + num + " already exists.", CoursesRoute);
    }
  }

  method DeleteCourse(store: Store, caller: Option<Email>, name: string) returns (r: Response)
    requires store.Valid() && Session(store.View(), caller)
    modifies store
    ensures store.Valid()
    ensures r == DeleteCourseResponse(old(store.View()), caller, name) && store.View() == r.db
  {
    var db := store.View();
    if caller.None? {
      return LoginRedirect(db);
    }
    if store.users[caller.value].accountType != Supervisor {
      return Warn(db, AccessDenied, CoursesRoute);
    }
    if name !in store.courses {
      return Warn(db, CourseNotFound, CoursesRoute);
    }
    store.DeleteCourse(name);
    r := Response(store.View(), [SuccessMsg(name + " has been deleted.")], Redirect(CoursesRoute));
  }

  method AddUser(store: Store, caller: Option<Email>, isPost: bool, post: Post) returns (r: Response)
    requires store.Valid() && Session(store.View(), caller)
    modifies store
    ensures store.Valid()
    ensures r == AddUserResponse(old(store.View()), caller, isPost, post) && store.View() == r.db
  {
    var db := store.View();
    if caller.None? {
      return LoginRedirect(db);
    }
    if store.users[caller.value].accountType != Supervisor {
      return Warn(db, AccessDenied, UsersRoute);
    }
    if !isPost {
      return Response(db, [], Render(AddUserTemplate));
    }
    if "email" !in post {
      return Response(db, [], ServerError(KeyError("email")));
    }
    if "password" !in post {
      return Response(db, [], ServerError(KeyError("password")));
    }
    if "type" !in post {
      return Response(db, [], ServerError(KeyError("type")));
    }
    var email := Strip(post["email"]);
    var created := store.CreateUser(email, post["type"]);
    var after := store.View();
    if created.Success? {
      r := Response(after, [SuccessMsg(created.value.email + " has been added.")], Redirect(UsersRoute));
    } else if created.error == IntegrityError {
      r := Warn(after, email + " already exists.", UsersRoute);
    } else {
      r := Warn(after, email + " is not a valid email.", UsersRoute);
    }
  }

  method DeleteUser(store: Store, caller: Option<Email>, email: Email) returns (r: Response)
    requires store.Valid() && Session(store.View(), caller)
    modifies store
    ensures store.Valid()
    ensures r == DeleteUserResponse(old(store.View()), caller, email) && store.View() == r.db
  {
    var db := store.View();
    if caller.None? {
      return LoginRedirect(db);
    }
    if store.users[caller.value].accountType != Supervisor {
      return Warn(db, AccessDenied, UsersRoute);
    }
    if email !in store.users {
      return Warn(db, UserNotFound, UsersRoute);
    }
    if email == caller.value {
      return Warn(db, CannotDeleteSelf, HomeRoute);
    }
    store.DeleteUser(email);
    r := Response(store.View(), [SuccessMsg(email + " has been deleted.")], Redirect(UsersRoute));
  }

  /** Adds `email` to, or takes it out of, the users of one skill. */
  method SetSkillMember(store: Store, skill: string, email: Email, member: bool)
    requires skill in store.skills
    modifies store
    ensures store.View() == WithSkillUsers(old(store.View()), skill,
      if member then old(store.skills[skill].users) + {email} else old(store.skills[skill].users) - {email})
  {
    var users := if member then store.skills[skill].users + {email} else store.skills[skill].users - {email};
    store.skills := store.skills[skill := store.skills[skill].(users := users)];
  }

  /** The skill part of a user_info POST, run against the store. */
  method ChangeSkills(store: Store, email: Email, post: Post) returns (warnings: seq<Message>)
    requires email in store.users
    modifies store
    ensures (store.View(), warnings) == SkillChanges(old(store.View()), email, post)
  {
    warnings := [];
    if "skill-add" in post && "skill-remove" in post && post["skill-add"] == post["skill-remove"] {
      return [WarningMsg(SkillAddRemoved)];
    }
    if "skill-add" in post && post["skill-add"] !in store.skills {
      return [WarningMsg(IndexOutOfRange)];
    }
    if "skill-add" in post {
      SetSkillMember(store, post["skill-add"], email, true);
    }
    if "skill-remove" in post && post["skill-remove"] !in store.skills {
      warnings := [WarningMsg(IndexOutOfRange)];
    } else if "skill-remove" in post {
      SetSkillMember(store, post["skill-remove"], email, false);
    }
  }

  method UserInfo(store: Store, caller: Option<Email>, email: Email, isPost: bool, post: Post) returns (r: Response)
    requires store.Valid() && Session(store.View(), caller)
    modifies store
    ensures store.Valid()
    ensures r == UserInfoResponse(old(store.View()), caller, email, isPost, post) && store.View() == r.db
  {
    UserInfoKeepsInvariant(store.View(), caller, email, isPost, post);
    var db := store.View();
    if caller.None? {
      return LoginRedirect(db);
    }
    if email !in store.users {
      return Warn(db, UserNotFound, UsersRoute);
    }
    if store.users[caller.value].accountType != Supervisor && caller.value != email {
      return Warn(db, AccessDenied, HomeRoute);
    }
    if !isPost {
      return Response(db, [], Render(UserInfoTemplate));
    }
    var missing := FirstMissing(ContactFields, post);
    if missing.Some? {
      return Response(db, [], ServerError(KeyError(missing.value)));
    }
    ContactFieldsPresent(post);
    UserInfoStores(db, caller, email, post);
    var warnings := SaveUserInfo(store, email, post);
    r := Response(store.View(), [SuccessMsg(InfoUpdated)] + warnings,
                  Redirect(if caller.value == email then HomeRoute else UsersRoute));
  }

  /** The saves of an allowed, complete user_info POST: the contact fields, then the skills. */
  method SaveUserInfo(store: Store, email: Email, post: Post) returns (warnings: seq<Message>)
    requires email in store.users && HasContactFields(post)
    modifies store
    ensures (store.View(), warnings) == SkillChanges(WithContact(old(store.View()), email, ContactFrom(post)), email, post)
  {
    store.users := store.users[email := store.users[email].(contact := ContactFrom(post))];
    warnings := ChangeSkills(store, email, post);
  }
}
