/**
 * The schedule on the home page (home_page in scheduler_app/views.py): a
 * Supervisor, or anyone with no sections, gets no schedule; anyone else gets
 * their sections sorted by starting time and bucketed by weekday, a "MW"
 * section under Monday and Wednesday, a "TR" section under Tuesday and
 * Thursday, an "F" section under Friday alone.
 */
module HomePage {
  import opened Wrappers
  import opened Models
  import opened Views

  datatype Week = Week(
    monday: seq<Section>, tuesday: seq<Section>, wednesday: seq<Section>,
    thursday: seq<Section>, friday: seq<Section>)

  datatype Home = LoginPage | Schedule(assignments: Option<Week>)

  const MondayCodes: set<string> := {"M", "MW"}
  const TuesdayCodes: set<string> := {"T", "TR"}
  const WednesdayCodes: set<string> := {"W", "MW"}
  const ThursdayCodes: set<string> := {"R", "TR"}
  const FridayCodes: set<string> := {"F"}

  /** The queryset's order, `Meta.ordering`, holds between every earlier and later element. */
  predicate MetaSorted(s: seq<Section>) {
    forall i, j :: 0 <= i < j < |s| ==> SectionOrder(s[i], s[j])
  }

  /** Earlier start first; for equal starts, the order the queryset had. */
  predicate Listed(a: Section, b: Section) {
    a.start < b.start || (a.start == b.start && SectionOrder(a, b))
  }

  predicate SortedListed(s: seq<Section>) {
    forall i, j :: 0 <= i < j < |s| ==> Listed(s[i], s[j])
  }

  predicate SortedByStart(s: seq<Section>) {
    forall i, j :: 0 <= i < j < |s| ==> s[i].start <= s[j].start
  }

  /** Places `x` after every element starting no later than it, as a stable sort does for a later element. */
  function Insert(x: Section, s: seq<Section>): (r: seq<Section>)
    ensures multiset(r) == multiset(s) + multiset{x}
  {
    if s == [] then [x]
    else if x.start < s[0].start then [x] + s
    else
      assert s == [s[0]] + s[1..];
      [s[0]] + Insert(x, s[1..])
  }

  lemma {:induction false} InsertSorted(x: Section, s: seq<Section>)
    requires SortedByStart(s)
    ensures SortedByStart(Insert(x, s))
  {
    if s != [] && x.start >= s[0].start {
      InsertSorted(x, s[1..]);
      var r := Insert(x, s);
      forall j | 1 <= j < |r| ensures s[0].start <= r[j].start {
        assert r[j] in multiset(Insert(x, s[1..]));
        if r[j] != x {
          assert r[j] in multiset(s[1..]);
        }
      }
    }
  }

  /** `sorted(section_list, key=attrgetter('meeting_start'))` */
  function SortByStart(s: seq<Section>): (r: seq<Section>)
    ensures multiset(r) == multiset(s)
  {
    if s == [] then []
    else
      assert s == s[..|s| - 1] + [s[|s| - 1]];
      Insert(s[|s| - 1], SortByStart(s[..|s| - 1]))
  }

  lemma {:induction false} SortByStartSorted(s: seq<Section>)
    ensures SortedByStart(SortByStart(s))
  {
    if s != [] {
      SortByStartSorted(s[..|s| - 1]);
      InsertSorted(s[|s| - 1], SortByStart(s[..|s| - 1]));
    }
  }

  lemma {:induction false} InsertListed(x: Section, s: seq<Section>)
    requires SortedListed(s)
    requires forall y :: y in s ==> SectionOrder(y, x)
    ensures SortedListed(Insert(x, s))
  {
    if s != [] && x.start >= s[0].start {
      InsertListed(x, s[1..]);
      var r := Insert(x, s);
      forall j | 1 <= j < |r| ensures Listed(s[0], r[j]) {
        assert r[j] in multiset(Insert(x, s[1..]));
        if r[j] != x {
          assert r[j] in multiset(s[1..]);
          var i :| 0 <= i < |s[1..]| && s[1..][i] == r[j];
          assert s[i + 1] == r[j];
        }
      }
    }
  }

  /**
   * Python's sort is stable, so the sorted list is ordered by start and,
   * between equal starts, by the section ordering the query returned.
   */
  lemma {:induction false} SortByStartListed(s: seq<Section>)
    requires MetaSorted(s)
    ensures SortedListed(SortByStart(s))
  {
    if s != [] {
      var init := s[..|s| - 1];
      assert MetaSorted(init);
      SortByStartListed(init);
      forall y | y in SortByStart(init) ensures SectionOrder(y, s[|s| - 1]) {
        assert y in multiset(init);
        var i :| 0 <= i < |init| && init[i] == y;
      }
      InsertListed(s[|s| - 1], SortByStart(init));
    }
  }

  /** One day's list comprehension: the sections meeting on one of `codes`, in order. */
  function OnDays(s: seq<Section>, codes: set<string>): (r: seq<Section>)
    ensures forall x :: x in r <==> x in s && x.days in codes
  {
    if s == [] then []
    else (if s[0].days in codes then [s[0]] else []) + OnDays(s[1..], codes)
  }

  lemma {:induction false} OnDaysListed(s: seq<Section>, codes: set<string>)
    requires SortedListed(s)
    ensures SortedListed(OnDays(s, codes))
  {
    if s != [] {
      OnDaysListed(s[1..], codes);
      var rest := OnDays(s[1..], codes);
      forall y | y in rest ensures Listed(s[0], y) {
        var i :| 0 <= i < |s[1..]| && s[1..][i] == y;
        assert s[i + 1] == y;
      }
    }
  }

  /**
   * What the query `Section.objects.filter(user=request.user)` returns:
   * exactly the caller's sections, in the section ordering.
   */
  ghost predicate QueriedFor(db: Db, email: Email, mine: seq<Section>) {
    && (forall x :: x in mine <==> x in db.sections.Values && x.user == Some(email))
    && MetaSorted(mine)
  }

  function HomeSchedule(db: Db, caller: Option<Email>, mine: seq<Section>): Home
    requires Session(db, caller)
    requires caller.Some? ==> QueriedFor(db, caller.value, mine)
  {
    if caller.None? then LoginPage
    else if Role(db, caller) == Supervisor then Schedule(None)
    else if |mine| == 0 then Schedule(None)
    else
      var sorted := SortByStart(mine);
      Schedule(Some(Week(OnDays(sorted, MondayCodes), OnDays(sorted, TuesdayCodes), OnDays(sorted, WednesdayCodes),
                         OnDays(sorted, ThursdayCodes), OnDays(sorted, FridayCodes))))
  }

  /**
   * A Supervisor, or a user without sections, gets no schedule. Anyone else
   * finds each of their sections under exactly the weekdays its pattern
   * names, and every day's list is ordered by start time.
   */
  lemma HomeScheduleBuckets(db: Db, caller: Option<Email>, mine: seq<Section>)
    requires Session(db, caller) && caller.Some? && QueriedFor(db, caller.value, mine)
    ensures var h := HomeSchedule(db, caller, mine);
            && (h.Schedule? && h.assignments.None? <==>
                  Role(db, caller) == Supervisor || (forall k :: k in db.sections ==> db.sections[k].user != caller))
            && (h.Schedule? && h.assignments.Some? ==>
                  var w := h.assignments.value;
                  && (forall x :: x in w.monday <==> x in mine && x.days in {"M", "MW"})
                  && (forall x :: x in w.tuesday <==> x in mine && x.days in {"T", "TR"})
                  && (forall x :: x in w.wednesday <==> x in mine && x.days in {"W", "MW"})
                  && (forall x :: x in w.thursday <==> x in mine && x.days in {"R", "TR"})
                  && (forall x :: x in w.friday <==> x in mine && x.days == "F")
                  && SortedListed(w.monday) && SortedListed(w.tuesday) && SortedListed(w.wednesday)
                  && SortedListed(w.thursday) && SortedListed(w.friday))
  {
    NoScheduleWhen(db, caller, mine);
    if Role(db, caller) != Supervisor && |mine| != 0 {
      ScheduleWeek(db, caller, mine);
    }
  }

  lemma NoScheduleWhen(db: Db, caller: Option<Email>, mine: seq<Section>)
    requires Session(db, caller) && caller.Some? && QueriedFor(db, caller.value, mine)
    ensures var h := HomeSchedule(db, caller, mine);
            h.Schedule? && h.assignments.None? <==>
              Role(db, caller) == Supervisor || (forall k :: k in db.sections ==> db.sections[k].user != caller)
  {
    if |mine| == 0 {
      forall k | k in db.sections ensures db.sections[k].user != caller {
        assert db.sections[k] in db.sections.Values;
      }
    } else {
      var x := mine[0];
      assert x in db.sections.Values;
    }
  }

  lemma ScheduleWeek(db: Db, caller: Option<Email>, mine: seq<Section>)
    requires Session(db, caller) && caller.Some? && QueriedFor(db, caller.value, mine)
    requires Role(db, caller) != Supervisor && |mine| != 0
    ensures var w := HomeSchedule(db, caller, mine).assignments.value;
            && (forall x :: x in w.monday <==> x in mine && x.days in {"M", "MW"})
            && (forall x :: x in w.tuesday <==> x in mine && x.days in {"T", "TR"})
            && (forall x :: x in w.wednesday <==> x in mine && x.days in {"W", "MW"})
            && (forall x :: x in w.thursday <==> x in mine && x.days in {"R", "TR"})
            && (forall x :: x in w.friday <==> x in mine && x.days == "F")
            && SortedListed(w.monday) && SortedListed(w.tuesday) && SortedListed(w.wednesday)
            && SortedListed(w.thursday) && SortedListed(w.friday)
  {
    var sorted := SortByStart(mine);
    SortByStartListed(mine);
    forall x ensures x in sorted <==> x in mine {
      assert x in sorted <==> x in multiset(sorted);
      assert x in mine <==> x in multiset(mine);
    }
    OnDaysListed(sorted, MondayCodes);
    OnDaysListed(sorted, TuesdayCodes);
    OnDaysListed(sorted, WednesdayCodes);
    OnDaysListed(sorted, ThursdayCodes);
    OnDaysListed(sorted, FridayCodes);
  }

  /** With the store's invariant, every mine section appears under at least one weekday. */
  lemma EverySectionScheduled(db: Db, caller: Option<Email>, mine: seq<Section>, x: Section)
    requires SectionsOk(db) && Session(db, caller) && caller.Some? && QueriedFor(db, caller.value, mine)
    requires Role(db, caller) != Supervisor && x in mine
    ensures var w := HomeSchedule(db, caller, mine).assignments.value;
            x in w.monday || x in w.tuesday || x in w.wednesday || x in w.thursday || x in w.friday
  {
    assert x in db.sections.Values;
    var k :| k in db.sections && db.sections[k] == x;
    assert x.days in MeetingDayCodes;
    assert x in multiset(mine);
    assert x in SortByStart(mine) by {
      assert x in multiset(SortByStart(mine));
    }
  }
}
