/**
 * The course-scheduling store of scheduler_app/models.py: users keyed by
 * (lower-cased) e-mail, courses keyed by their upper-cased name, sections
 * keyed by (course, section number) and skills keyed by name, with the four
 * factories, the two foreign-key deletion rules and the section ordering.
 *
 * Each factory is specified by a function on the value `Db` (what the store
 * holds after the call and what the call returns or raises); the `Store`
 * class holds the same maps in fields and its methods are proved to leave
 * exactly that state behind.
 */
module Models {
  import opened Wrappers
  import opened PyBuiltins
  import opened Validators

  type Email = string

  /** `User.UserType` */
  const Supervisor := "SU"
  const Instructor := "IN"
  const TeachingAssistant := "TA"

  /** `Section.SectionTypes` */
  const Lab := "LAB"
  const Lecture := "LEC"

  /** `Section.MeetingDays.values` */
  const MeetingDayCodes: set<string> := {"M", "T", "W", "R", "F", "MW", "TR"}

  /** The contact columns of a user, all blank when the account is created. */
  datatype Contact = Contact(
    firstName: string, lastName: string, phone: string, city: string,
    state: string, addressLine1: string, addressLine2: string, zipcode: string)

  const BlankContact := Contact("", "", "", "", "", "", "", "")

  datatype User = User(email: Email, accountType: string, contact: Contact)

  datatype Course = Course(
    name: string, dpt: string, num: string,
    description: Option<string>, term: Option<string>,
    users: set<Email>)

  datatype SectionKey = SectionKey(course: string, number: string)

  /** A section; meeting times are minutes after midnight. */
  datatype Section = Section(
    number: string, course: string, user: Option<Email>, sectionType: string,
    start: nat, end: nat, days: string)
  {
    function Key(): SectionKey { SectionKey(course, number) }
  }

  datatype Skill = Skill(name: string, users: set<Email>)

  /** The rows of the four tables; the many-to-many tables are the `users` sets. */
  datatype Db = Db(
    users: map<Email, User>,
    courses: map<string, Course>,
    sections: map<SectionKey, Section>,
    skills: map<string, Skill>)

  const EmptyDb := Db(map[], map[], map[], map[])

  /**
   * What the factories and deletion rules keep true of the store: keys are
   * the rows' own identities, stored e-mails are matching and lower-cased,
   * course names are the upper-cased department and number, every section
   * passed create_section's checks, and every reference points at a row.
   */
  ghost predicate Invariant(db: Db) {
    UsersOk(db) && CoursesOk(db) && SectionsOk(db) && SkillsOk(db)
  }

  ghost predicate UsersOk(db: Db) {
    forall e :: e in db.users ==> db.users[e].email == e && e == Lower(e) && FullMatch(e)
  }

  ghost predicate CoursesOk(db: Db) {
    forall n :: n in db.courses ==>
      && db.courses[n].name == n
      && n == Upper(db.courses[n].dpt + db.courses[n].num)
      && db.courses[n].users <= db.users.Keys
  }

  ghost predicate SectionsOk(db: Db) {
    forall k :: k in db.sections ==>
      && db.sections[k].Key() == k
      && k.course in db.courses
      && |k.number| == 3
      && db.sections[k].start < db.sections[k].end
      && db.sections[k].days in MeetingDayCodes
      && (db.sections[k].user.Some? ==> db.sections[k].user.value in db.users)
  }

  ghost predicate SkillsOk(db: Db) {
    forall n :: n in db.skills ==> db.skills[n].name == n && n != "" && db.skills[n].users <= db.users.Keys
  }

  lemma EmptyDbInvariant()
    ensures Invariant(EmptyDb)
  {
  }

  /** The store after a call, and what the call returned or raised. */
  datatype Created<T> = Created(db: Db, result: Result<T, Exception>)

  // ---------------------------------------------------------------- users

  /**
   * `UserManager.create_user`: the address is checked as given, then stored
   * lower-cased; the unique e-mail column refuses a second account.
   */
  function AfterCreateUser(db: Db, email: string, accountType: string): (r: Created<User>)
    ensures r.result.Success? <==> FullMatch(email) && Lower(email) !in db.users
    ensures !FullMatch(email) ==>
      r.result == Failure(ValidationError(email + " is not a valid email address"))
    ensures FullMatch(email) && Lower(email) in db.users ==> r.result == Failure(IntegrityError)
    ensures r.result.Failure? ==> r.db == db
    ensures r.result.Success? ==>
      && r.result.value == User(Lower(email), accountType, BlankContact)
      && r.db == db.(users := db.users[Lower(email) := r.result.value])
  {
    match ValidateEmail(email)
    case Some(e) => Created(db, Failure(e))
    case None =>
      var stored := Lower(email);
      if stored in db.users then Created(db, Failure(IntegrityError))
      else
        var user := User(stored, accountType, BlankContact);
        Created(db.(users := db.users[stored := user]), Success(user))
  }

  lemma CreateUserKeepsInvariant(db: Db, email: string, accountType: string)
    requires Invariant(db)
    ensures Invariant(AfterCreateUser(db, email, accountType).db)
  {
    var r := AfterCreateUser(db, email, accountType);
    if r.result.Success? {
      var e := Lower(email);
      LowerKeepsMatch(email);
      LowerIdempotent(email);
      AddUserKeepsInvariant(db, User(e, accountType, BlankContact));
    }
  }

  /** Adding a lower-cased, matching account under its own address keeps the invariant. */
  lemma AddUserKeepsInvariant(db: Db, u: User)
    requires Invariant(db) && u.email == Lower(u.email) && FullMatch(u.email)
    ensures Invariant(db.(users := db.users[u.email := u]))
  {
    var r := db.(users := db.users[u.email := u]);
    assert UsersOk(r);
    assert CoursesOk(r) by {
      forall n | n in r.courses ensures r.courses[n].users <= r.users.Keys {
        assert db.courses[n].users <= db.users.Keys;
      }
    }
    assert SectionsOk(r);
    assert SkillsOk(r) by {
      forall n | n in r.skills ensures r.skills[n].users <= r.users.Keys {
        assert db.skills[n].users <= db.users.Keys;
      }
    }
  }

  /** Addresses that differ only in case name the same account: the second is refused. */
  lemma CreateUserCaseInsensitive(db: Db, email: string, other: string, accountType: string)
    requires FullMatch(email) && FullMatch(other) && Lower(email) == Lower(other)
    requires AfterCreateUser(db, email, accountType).result.Success?
    ensures AfterCreateUser(AfterCreateUser(db, email, accountType).db, other, accountType).result
      == Failure(IntegrityError)
  {
  }

  // ---------------------------------------------------------------- courses

  /**
   * `CourseManager.create_course`: the name is the upper-cased
   * concatenation, `dpt` and `num` are kept as given, and the forced insert
   * fails on an existing primary key.
   */
  function AfterCreateCourse(db: Db, dpt: string, num: string, description: Option<string>): (r: Created<Course>)
    ensures r.result.Success? <==> Upper(dpt + num) !in db.courses
    ensures r.result.Failure? ==> r.result.error == IntegrityError && r.db == db
    ensures r.result.Success? ==>
      && r.result.value.name == Upper(dpt + num)
      && r.result.value.dpt == dpt && r.result.value.num == num
      && r.result.value.description == description
      && r.result.value.term.None? && r.result.value.users == {}
      && r.db == db.(courses := db.courses[r.result.value.name := r.result.value])
  {
    var name := Upper(dpt + num);
    if name in db.courses then Created(db, Failure(IntegrityError))
    else
      var course := Course(name, dpt, num, description, None, {});
      Created(db.(courses := db.courses[name := course]), Success(course))
  }

  lemma CreateCourseKeepsInvariant(db: Db, dpt: string, num: string, description: Option<string>)
    requires Invariant(db)
    ensures Invariant(AfterCreateCourse(db, dpt, num, description).db)
  {
  }

  /**
   * Creating the same course twice (or one whose name differs only in case)
   * fails the second time and leaves exactly the first course in the store.
   */
  lemma {:induction false} CreateCourseTwice(db: Db, dpt: string, num: string, dpt2: string, num2: string,
                                             d1: Option<string>, d2: Option<string>)
    requires Upper(dpt + num) !in db.courses
    requires Upper(dpt2 + num2) == Upper(dpt + num)
    ensures var first := AfterCreateCourse(db, dpt, num, d1);
            var second := AfterCreateCourse(first.db, dpt2, num2, d2);
            && second.result == Failure(IntegrityError)
            && second.db == first.db
            && second.db.courses.Keys == db.courses.Keys + {Upper(dpt + num)}
            && second.db.courses[Upper(dpt + num)] == first.result.value
  {
  }

  /** Letters of the stored name are upper-case; department "cs" and number "361" make "CS361". */
  lemma CourseNameUpperCase(dpt: string, num: string)
    ensures forall i :: 0 <= i < |Upper(dpt + num)| ==> !IsAsciiLower(Upper(dpt + num)[i])
    ensures Upper(dpt + num) == Upper(dpt) + Upper(num)
  {
    UpperAppend(dpt, num);
  }

  // ---------------------------------------------------------------- sections

  /** An argument as create_section sees it: it tests truthiness and `isinstance`. */
  datatype Arg =
    | NoneArg                     // None
    | Str(s: string)              // a str
    | TimeArg(minutes: nat)       // a datetime.time (always truthy)
    | CourseRef(name: string)     // a saved Course
    | OtherArg                    // any other object

  const NumberRequired := "Section number must be provided to create a Section"
  const NumberLength := "Section number must be exactly 3 characters long"
  const CourseRequired := "Course must be provided to create a Section"
  const StartRequired := "Starting time is required to create a Section"
  const EndRequired := "Ending time is required to create a Section"
  const InvalidPattern := "Invalid meeting pattern"
  const EndsBeforeStart := "A Section meeting cannot end until after it has started"
  const DuplicateNumber := "Two Sections with the same number cannot belong to the same Course"

  /** Every argument create_section looks at is acceptable, in no particular order. */
  predicate GoodSectionArgs(number: Arg, course: Arg, start: Arg, end: Arg, days: Arg) {
    && number.Str? && |number.s| == 3
    && course.CourseRef?
    && start.TimeArg? && end.TimeArg? && start.minutes < end.minutes
    && days.Str? && days.s in MeetingDayCodes
  }

  /** The checks of create_section that look only at the arguments, in source order. */
  function SectionArgsError(number: Arg, course: Arg, start: Arg, end: Arg, days: Arg): (r: Option<Exception>)
    ensures r.None? <==> GoodSectionArgs(number, course, start, end, days)
    ensures r.Some? ==> r.value.TypeError? || r.value.ValueError?
  {
    if !number.Str? || number.s == "" then Some(TypeError(NumberRequired))
    else if |number.s| != 3 then Some(ValueError(NumberLength))
    else if !course.CourseRef? then Some(TypeError(CourseRequired))
    else if !start.TimeArg? then Some(TypeError(StartRequired))
    else if !end.TimeArg? then Some(TypeError(EndRequired))
    else if !days.Str? || days.s !in MeetingDayCodes then Some(TypeError(InvalidPattern))
    else if start.minutes >= end.minutes then Some(ValueError(EndsBeforeStart))
    else None
  }

  /**
   * The checks come in a fixed order, so a worse-looking later problem never
   * hides an earlier one: a badly sized number is a ValueError even when the
   * course is missing, a bad day pattern is a TypeError even when the times
   * are reversed, and reversed or equal times are a ValueError.
   */
  lemma SectionCheckOrder(number: Arg, course: Arg, start: Arg, end: Arg, days: Arg)
    ensures number.Str? && number.s != "" && |number.s| != 3 ==>
      SectionArgsError(number, course, start, end, days) == Some(ValueError(NumberLength))
    ensures !number.Str? || number.s == "" ==>
      SectionArgsError(number, course, start, end, days) == Some(TypeError(NumberRequired))
    ensures number.Str? && |number.s| == 3 && !course.CourseRef? ==>
      SectionArgsError(number, course, start, end, days) == Some(TypeError(CourseRequired))
    ensures number.Str? && |number.s| == 3 && course.CourseRef? && (!start.TimeArg? || !end.TimeArg?) ==>
      SectionArgsError(number, course, start, end, days).value.TypeError?
    ensures number.Str? && |number.s| == 3 && course.CourseRef? && start.TimeArg? && end.TimeArg?
            && !(days.Str? && days.s in MeetingDayCodes) ==>
      SectionArgsError(number, course, start, end, days) == Some(TypeError(InvalidPattern))
    ensures number.Str? && |number.s| == 3 && course.CourseRef? && start.TimeArg? && end.TimeArg?
            && days.Str? && days.s in MeetingDayCodes && start.minutes >= end.minutes ==>
      SectionArgsError(number, course, start, end, days) == Some(ValueError(EndsBeforeStart))
  {
  }

  /**
   * `SectionManager.create_section`: the argument checks, then the search of
   * the course's sections for the same number, then the insert. The new
   * section has no user assigned.
   */
  function AfterCreateSection(db: Db, number: Arg, course: Arg, start: Arg, end: Arg, days: Arg,
                              sectionType: string): (r: Created<Section>)
    requires course.CourseRef? ==> course.name in db.courses
    ensures r.result.Failure? ==> r.db == db
    ensures r.result.Success? <==>
      GoodSectionArgs(number, course, start, end, days)
      && SectionKey(course.name, number.s) !in db.sections
    ensures GoodSectionArgs(number, course, start, end, days)
            && SectionKey(course.name, number.s) in db.sections ==>
      r.result == Failure(ValueError(DuplicateNumber))
    ensures r.result.Success? ==>
      && r.result.value == Section(number.s, course.name, None, sectionType, start.minutes, end.minutes, days.s)
      && r.db == db.(sections := db.sections[r.result.value.Key() := r.result.value])
  {
    match SectionArgsError(number, course, start, end, days)
    case Some(e) => Created(db, Failure(e))
    case None =>
      var key := SectionKey(course.name, number.s);
      if key in db.sections then Created(db, Failure(ValueError(DuplicateNumber)))
      else
        var section := Section(number.s, course.name, None, sectionType, start.minutes, end.minutes, days.s);
        Created(db.(sections := db.sections[key := section]), Success(section))
  }

  lemma CreateSectionKeepsInvariant(db: Db, number: Arg, course: Arg, start: Arg, end: Arg, days: Arg,
                                    sectionType: string)
    requires Invariant(db)
    requires course.CourseRef? ==> course.name in db.courses
    ensures Invariant(AfterCreateSection(db, number, course, start, end, days, sectionType).db)
  {
  }

  /**
   * A second section with the same number in the same course is refused and
   * the store keeps only the first; the same number in another course, or
   * the same meeting time in the same course, is accepted.
   */
  lemma SectionNumbersPerCourse(db: Db, c: string, d: string, number: string, start: nat, end: nat,
                                start2: nat, end2: nat, days: string, days2: string, t: string)
    requires Invariant(db) && c in db.courses && d in db.courses && c != d
    requires |number| == 3 && start < end && start2 < end2
    requires days in MeetingDayCodes && days2 in MeetingDayCodes
    requires SectionKey(c, number) !in db.sections && SectionKey(d, number) !in db.sections
    ensures var first := AfterCreateSection(db, Str(number), CourseRef(c), TimeArg(start), TimeArg(end), Str(days), t);
            var again := AfterCreateSection(first.db, Str(number), CourseRef(c), TimeArg(start2), TimeArg(end2), Str(days2), t);
            var elsewhere := AfterCreateSection(first.db, Str(number), CourseRef(d), TimeArg(start), TimeArg(end), Str(days), t);
            && first.result.Success?
            && again.result == Failure(ValueError(DuplicateNumber)) && again.db == first.db
            && elsewhere.result.Success?
  {
  }

  /** Same course, same time slot, different number: both sections are kept. */
  lemma SameSlotAllowed(db: Db, c: string, n1: string, n2: string, start: nat, end: nat, days: string, t: string)
    requires c in db.courses && |n1| == 3 && |n2| == 3 && n1 != n2 && start < end && days in MeetingDayCodes
    requires SectionKey(c, n1) !in db.sections && SectionKey(c, n2) !in db.sections
    ensures var first := AfterCreateSection(db, Str(n1), CourseRef(c), TimeArg(start), TimeArg(end), Str(days), t);
            var second := AfterCreateSection(first.db, Str(n2), CourseRef(c), TimeArg(start), TimeArg(end), Str(days), t);
            && second.result.Success?
            && SectionKey(c, n1) in second.db.sections && SectionKey(c, n2) in second.db.sections
  {
  }

  // ---------------------------------------------------------------- skills

  const SkillNameRequired := "Skill name must be provided to create a Skill"

  /** `SkillManager.create_skill`: a non-empty string name that no skill has yet. */
  function AfterCreateSkill(db: Db, name: Arg): (r: Created<Skill>)
    ensures r.result.Success? <==> name.Str? && name.s != "" && name.s !in db.skills
    ensures !(name.Str? && name.s != "") ==> r.result == Failure(TypeError(SkillNameRequired))
    ensures name.Str? && name.s in db.skills && name.s != "" ==> r.result == Failure(IntegrityError)
    ensures r.result.Failure? ==> r.db == db
    ensures r.result.Success? ==>
      r.result.value == Skill(name.s, {}) && r.db == db.(skills := db.skills[name.s := Skill(name.s, {})])
  {
    if !name.Str? || name.s == "" then Created(db, Failure(TypeError(SkillNameRequired)))
    else if name.s in db.skills then Created(db, Failure(IntegrityError))
    else Created(db.(skills := db.skills[name.s := Skill(name.s, {})]), Success(Skill(name.s, {})))
  }

  lemma CreateSkillKeepsInvariant(db: Db, name: Arg)
    requires Invariant(db)
    ensures Invariant(AfterCreateSkill(db, name).db)
  {
  }

  // ---------------------------------------------------------------- deletion rules

  /** `Section.course` is `on_delete=CASCADE`: deleting a course deletes its sections. */
  function AfterDeleteCourse(db: Db, name: string): (r: Db)
    ensures r.courses == db.courses - {name}
    ensures forall k :: k in r.sections <==> k in db.sections && k.course != name
    ensures forall k :: k in r.sections ==> r.sections[k] == db.sections[k]
    ensures r.users == db.users && r.skills == db.skills
  {
    db.(courses := db.courses - {name},
        sections := map k | k in db.sections && k.course != name :: db.sections[k])
  }

  lemma DeleteCourseKeepsInvariant(db: Db, name: string)
    requires Invariant(db)
    ensures Invariant(AfterDeleteCourse(db, name))
  {
  }

  /**
   * Deleting a user: `Section.user` is `on_delete=SET_NULL`, so the sections
   * stay and lose their user; the rows of the two many-to-many tables that
   * name the user go with it.
   */
  function AfterDeleteUser(db: Db, email: Email): (r: Db)
    ensures r.users == db.users - {email}
    ensures r.sections.Keys == db.sections.Keys
    ensures forall k :: k in db.sections ==>
      r.sections[k] == if db.sections[k].user == Some(email) then db.sections[k].(user := None) else db.sections[k]
    ensures r.courses.Keys == db.courses.Keys
    ensures forall n :: n in db.courses ==> r.courses[n] == db.courses[n].(users := db.courses[n].users - {email})
    ensures r.skills.Keys == db.skills.Keys
    ensures forall n :: n in db.skills ==> r.skills[n] == db.skills[n].(users := db.skills[n].users - {email})
  {
    Db(db.users - {email},
       map n | n in db.courses :: db.courses[n].(users := db.courses[n].users - {email}),
       map k | k in db.sections ::
         if db.sections[k].user == Some(email) then db.sections[k].(user := None) else db.sections[k],
       map n | n in db.skills :: db.skills[n].(users := db.skills[n].users - {email}))
  }

  lemma DeleteUserKeepsInvariant(db: Db, email: Email)
    requires Invariant(db)
    ensures Invariant(AfterDeleteUser(db, email))
  {
    DeleteUserKeepsCourses(db, email);
    DeleteUserKeepsSections(db, email);
    DeleteUserKeepsSkills(db, email);
  }

  lemma DeleteUserKeepsCourses(db: Db, email: Email)
    requires CoursesOk(db)
    ensures CoursesOk(AfterDeleteUser(db, email))
  {
    var r := AfterDeleteUser(db, email);
    forall n | n in r.courses ensures r.courses[n].users <= r.users.Keys {
      assert db.courses[n].users <= db.users.Keys;
    }
  }

  lemma DeleteUserKeepsSections(db: Db, email: Email)
    requires SectionsOk(db)
    ensures SectionsOk(AfterDeleteUser(db, email))
  {
    var r := AfterDeleteUser(db, email);
    forall k | k in r.sections
      ensures r.sections[k].user.Some? ==> r.sections[k].user.value in r.users
    {
      assert db.sections[k].user.Some? ==> db.sections[k].user.value in db.users;
    }
  }

  lemma DeleteUserKeepsSkills(db: Db, email: Email)
    requires SkillsOk(db)
    ensures SkillsOk(AfterDeleteUser(db, email))
  {
    var r := AfterDeleteUser(db, email);
    forall n | n in r.skills ensures r.skills[n].users <= r.users.Keys {
      assert db.skills[n].users <= db.users.Keys;
    }
  }

  /** No section mentions a deleted user, and no section is lost. */
  lemma DeleteUserLeavesNoReference(db: Db, email: Email)
    ensures var r := AfterDeleteUser(db, email);
      && (forall k :: k in r.sections ==> r.sections[k].user != Some(email))
      && |r.sections| == |db.sections|
  {
    var r := AfterDeleteUser(db, email);
    assert r.sections.Keys == db.sections.Keys;
  }

  // ---------------------------------------------------------------- ordering

  /**
   * The order the database sorts `section_number` by for the Meta ordering:
   * SQLite's BINARY collation, which on UTF-8 text is code point by code
   * point, a prefix first.
   */
  predicate StrLessEq(a: string, b: string) {
    a == [] || (b != [] && (a[0] < b[0] || (a[0] == b[0] && StrLessEq(a[1..], b[1..]))))
  }

  lemma {:induction false} StrLessEqTotal(a: string, b: string)
    ensures StrLessEq(a, b) || StrLessEq(b, a)
  {
    if a != [] && b != [] && a[0] == b[0] {
      StrLessEqTotal(a[1..], b[1..]);
    }
  }

  lemma {:induction false} StrLessEqTransitive(a: string, b: string, c: string)
    requires StrLessEq(a, b) && StrLessEq(b, c)
    ensures StrLessEq(a, c)
  {
    if a != [] && b != [] && c != [] && a[0] == b[0] && b[0] == c[0] {
      StrLessEqTransitive(a[1..], b[1..], c[1..]);
    }
  }

  /** `Meta.ordering = ['-section_type', 'section_number']`: type descending, then number. */
  predicate SectionOrder(a: Section, b: Section) {
    if a.sectionType != b.sectionType then StrLessEq(b.sectionType, a.sectionType)
    else StrLessEq(a.number, b.number)
  }

  /**
   * The ordering is total, and puts every lecture ("LEC") before every lab
   * ("LAB"), whatever their numbers.
   */
  lemma SectionOrderTotal(a: Section, b: Section)
    ensures SectionOrder(a, b) || SectionOrder(b, a)
    ensures a.sectionType == Lecture && b.sectionType == Lab ==> SectionOrder(a, b) && !SectionOrder(b, a)
  {
    StrLessEqTotal(a.sectionType, b.sectionType);
    StrLessEqTotal(a.number, b.number);
    if a.sectionType == Lecture && b.sectionType == Lab {
      assert Lab[1..] == "AB" && Lecture[1..] == "EC";
    }
  }

  lemma SectionOrderTransitive(a: Section, b: Section, c: Section)
    requires SectionOrder(a, b) && SectionOrder(b, c)
    ensures SectionOrder(a, c)
  {
    if a.sectionType == b.sectionType && b.sectionType == c.sectionType {
      StrLessEqTransitive(a.number, b.number, c.number);
    } else if a.sectionType != b.sectionType && b.sectionType != c.sectionType {
      StrLessEqTransitive(c.sectionType, b.sectionType, a.sectionType);
      if a.sectionType == c.sectionType {
        StrLessEqAntisymmetric(a.sectionType, b.sectionType);
        assert false;
      }
    }
  }

  lemma {:induction false} StrLessEqAntisymmetric(a: string, b: string)
    requires StrLessEq(a, b) && StrLessEq(b, a)
    ensures a == b
  {
    if a != [] && b != [] && a[0] == b[0] {
      StrLessEqAntisymmetric(a[1..], b[1..]);
    }
  }

  // ---------------------------------------------------------------- the store

  /** The database tables, saved to row by row as the factories run. */
  class Store {
    var users: map<Email, User>
    var courses: map<string, Course>
    var sections: map<SectionKey, Section>
    var skills: map<string, Skill>

    function View(): Db
      reads this
    {
      Db(users, courses, sections, skills)
    }

    ghost predicate Valid()
      reads this
    {
      Invariant(View())
    }

    constructor ()
      ensures View() == EmptyDb && Valid()
    {
      users, courses, sections, skills := map[], map[], map[], map[];
    }

    method CreateUser(email: string, accountType: string) returns (r: Result<User, Exception>)
      requires Valid()
      modifies this
      ensures Valid()
      ensures View() == AfterCreateUser(old(View()), email, accountType).db
      ensures r == AfterCreateUser(old(View()), email, accountType).result
    {
      CreateUserKeepsInvariant(View(), email, accountType);
      var invalid := ValidateEmail(email);
      if invalid.Some? {
        return Failure(invalid.value);
      }
      var stored := Lower(email);
      if stored in users {
        return Failure(IntegrityError);
      }
      var user := User(stored, accountType, BlankContact);
      users := users[stored := user];
      r := Success(user);
    }

    method CreateCourse(dpt: string, num: string, description: Option<string>) returns (r: Result<Course, Exception>)
      requires Valid()
      modifies this
      ensures Valid()
      ensures View() == AfterCreateCourse(old(View()), dpt, num, description).db
      ensures r == AfterCreateCourse(old(View()), dpt, num, description).result
    {
      CreateCourseKeepsInvariant(View(), dpt, num, description);
      var name := Upper(dpt + num);
      if name in courses {
        return Failure(IntegrityError);
      }
      var course := Course(name, dpt, num, description, None, {});
      courses := courses[name := course];
      r := Success(course);
    }

    /** The argument checks, then a scan of the course's sections for a rival number, then the insert. */
    method CreateSection(number: Arg, course: Arg, start: Arg, end: Arg, days: Arg, sectionType: string)
      returns (r: Result<Section, Exception>)
      requires Valid()
      requires course.CourseRef? ==> course.name in courses
      modifies this
      ensures Valid()
      ensures View() == AfterCreateSection(old(View()), number, course, start, end, days, sectionType).db
      ensures r == AfterCreateSection(old(View()), number, course, start, end, days, sectionType).result
    {
      CreateSectionKeepsInvariant(View(), number, course, start, end, days, sectionType);
      var error := SectionArgsError(number, course, start, end, days);
      if error.Some? {
        return Failure(error.value);
      }
      var pending := set k | k in sections && k.course == course.name;
      while pending != {}
        invariant pending <= sections.Keys
        invariant forall k :: k in sections && k.course == course.name && k !in pending ==> k.number != number.s
        decreases pending
      {
        var k :| k in pending;
        if sections[k].number == number.s {
          return Failure(ValueError(DuplicateNumber));
        }
        pending := pending - {k};
      }
      var section := Section(number.s, course.name, None, sectionType, start.minutes, end.minutes, days.s);
      sections := sections[section.Key() := section];
      r := Success(section);
    }

    method CreateSkill(name: Arg) returns (r: Result<Skill, Exception>)
      requires Valid()
      modifies this
      ensures Valid()
      ensures View() == AfterCreateSkill(old(View()), name).db
      ensures r == AfterCreateSkill(old(View()), name).result
    {
      CreateSkillKeepsInvariant(View(), name);
      if !name.Str? || name.s == "" {
        return Failure(TypeError(SkillNameRequired));
      }
      if name.s in skills {
        return Failure(IntegrityError);
      }
      skills := skills[name.s := Skill(name.s, {})];
      r := Success(Skill(name.s, {}));
    }

    /** `Course.delete()`: the course row and, by the cascade, its sections. */
    method DeleteCourse(name: string)
      requires Valid() && name in courses
      modifies this
      ensures Valid()
      ensures View() == AfterDeleteCourse(old(View()), name)
    {
      DeleteCourseKeepsInvariant(View(), name);
      sections := map k | k in sections && k.course != name :: sections[k];
      courses := courses - {name};
    }

    /** `User.delete()`: the user row, its many-to-many rows, and the section references set to NULL. */
    method DeleteUser(email: Email)
      requires Valid() && email in users
      modifies this
      ensures Valid()
      ensures View() == AfterDeleteUser(old(View()), email)
    {
      DeleteUserKeepsInvariant(View(), email);
      var after := AfterDeleteUser(View(), email);
      users, courses, sections, skills := after.users, after.courses, after.sections, after.skills;
    }
  }
}
