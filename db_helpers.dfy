/** The two writing operations of the database helpers, as functions from a
    store to a store and a result: toggling an availability and saving the
    notes of an enrolment. The class in `store.dfy` performs them in place and
    is proved to agree with these functions; the lemmas here say what they do. */
module DbHelpers {
  import opened Wrappers
  import opened Seqs
  import opened Dates
  import opened Formats
  import opened Entities

  /** The store an operation leaves behind and what it returned. On an error
      the store is the one it started from: the session is rolled back. */
  datatype Outcome<T> = Outcome(db: Db, value: T)

  // ---------------------------------------------------------------------------
  // Toggling an availability.
  // ---------------------------------------------------------------------------

  datatype ToggleError =
    | InvalidDate       // the date text is not `YYYY-MM-DD`
    | NoPlanPeriod      // no active plan period contains the date
    | NotEnrolled       // the person has no active enrolment in that plan period
    | UnknownTimeOfDay  // no time of day has that id, so the new row lacks a required reference
    | Conflict          // more than one active row fills the slot, so `get` refuses

  /** An active plan period that contains day `d`. */
  predicate Covers(p: PlanPeriod, d: Date) { p.Active() && Le(p.start, d) && Le(d, p.end) }

  /** `i` is the active plan period containing `d` that `.first()` picks. The
      query has no order of its own, so it is ordered by primary key: the
      least key wins, and of several stored rows with that key the earliest. */
  predicate LeastCovering(periods: seq<PlanPeriod>, d: Date, i: int) {
    && 0 <= i < |periods| && Covers(periods[i], d)
    && (forall i' :: 0 <= i' < |periods| && Covers(periods[i'], d) ==> periods[i].id <= periods[i'].id)
    && (forall i' :: 0 <= i' < i && Covers(periods[i'], d) ==> periods[i].id < periods[i'].id)
  }

  /** `j` is the person's active enrolment in the period that `.first()`
      picks, by the same least-key rule. */
  predicate LeastEnrolment(enrolments: seq<EmployeePlanPeriod>, user: Id, period: Id, j: int) {
    && 0 <= j < |enrolments| && Enrols(enrolments[j], user, period)
    && (forall j' :: 0 <= j' < |enrolments| && Enrols(enrolments[j'], user, period) ==> enrolments[j].id <= enrolments[j'].id)
    && (forall j' :: 0 <= j' < j && Enrols(enrolments[j'], user, period) ==> enrolments[j].id < enrolments[j'].id)
  }

  /** The person is enrolled in the covering period of `d` that `.first()` picks. */
  predicate EnrolledOn(periods: seq<PlanPeriod>, enrolments: seq<EmployeePlanPeriod>, user: Id, d: Date) {
    exists i :: 0 <= i < |periods| && LeastCovering(periods, d, i)
      && exists j :: 0 <= j < |enrolments| && Enrols(enrolments[j], user, periods[i].id)
  }

  /** The lookups a toggle makes before it touches anything: the date, the
      active plan period containing it with the least key, the person's active
      enrolment in that period with the least key, and the time of day. The
      result is the slot to toggle; the time of day is neither required to be
      active nor to belong to the person. Each error names the first lookup
      that fails. */
  function Resolve(periods: seq<PlanPeriod>, enrolments: seq<EmployeePlanPeriod>, times: seq<TimeOfDay>,
                   user: Id, dateText: string, tod: Id): (r: Result<Slot, ToggleError>)
    ensures r == Err(InvalidDate) <==> ParseIsoDate(dateText).None?
    ensures r == Err(NoPlanPeriod) <==>
      ParseIsoDate(dateText).Some? && forall i :: 0 <= i < |periods| ==> !Covers(periods[i], ParseIsoDate(dateText).value)
    ensures r == Err(NotEnrolled) <==>
      ParseIsoDate(dateText).Some? && (exists i :: LeastCovering(periods, ParseIsoDate(dateText).value, i))
      && !EnrolledOn(periods, enrolments, user, ParseIsoDate(dateText).value)
    ensures r == Err(UnknownTimeOfDay) <==>
      ParseIsoDate(dateText).Some? && EnrolledOn(periods, enrolments, user, ParseIsoDate(dateText).value)
      && forall t :: 0 <= t < |times| ==> times[t].id != tod
    ensures r.Ok? ==>
      && ParseIsoDate(dateText) == Some(r.value.date) && r.value.timeOfDay == tod
      && (exists t :: 0 <= t < |times| && times[t].id == tod)
      && exists i, j :: LeastCovering(periods, r.value.date, i) && LeastEnrolment(enrolments, user, periods[i].id, j)
           && enrolments[j].id == r.value.employeePlanPeriod
    ensures r != Err(Conflict)
  {
    match ParseIsoDate(dateText)
    case None => Err(InvalidDate)
    case Some(d) =>
      match LeastWhere(periods, (p: PlanPeriod) => p.id, (p: PlanPeriod) => Covers(p, d))
      case None => Err(NoPlanPeriod)
      case Some(i) =>
        LeastCoveringUnique(periods, enrolments, user, d, i);
        match LeastWhere(enrolments, (e: EmployeePlanPeriod) => e.id, (e: EmployeePlanPeriod) => Enrols(e, user, periods[i].id))
        case None => Err(NotEnrolled)
        case Some(j) =>
          assert LeastEnrolment(enrolments, user, periods[i].id, j);
          if exists t :: 0 <= t < |times| && times[t].id == tod
          then Ok(Slot(enrolments[j].id, tod, d))
          else Err(UnknownTimeOfDay)
  }

  /** Only one covering period meets the least-key rule, so being enrolled on
      `d` is being enrolled in that one. */
  lemma LeastCoveringUnique(periods: seq<PlanPeriod>, enrolments: seq<EmployeePlanPeriod>, user: Id, d: Date, i: int)
    requires LeastCovering(periods, d, i)
    ensures forall i' :: LeastCovering(periods, d, i') ==> i' == i
    ensures EnrolledOn(periods, enrolments, user, d) <==>
      exists j :: 0 <= j < |enrolments| && Enrols(enrolments[j], user, periods[i].id)
  {
  }

  /** `prep_delete` set on a row that fills the slot; every other row as it was. */
  function Retire(a: Availability, k: Slot, now: Stamp): Availability {
    if Fills(a, k) then a.(prepDelete := Some(now)) else a
  }

  function RetireAll(s: seq<Availability>, k: Slot, now: Stamp): (r: seq<Availability>)
    ensures |r| == |s| && forall i :: 0 <= i < |s| ==> r[i] == Retire(s[i], k, now)
  {
    seq(|s|, i requires 0 <= i < |s| => Retire(s[i], k, now))
  }

  /** A fresh active availability for slot `k`. */
  function NewAvailability(id: Id, k: Slot, now: Stamp): Availability {
    Availability(id, Unset, now, now, None, k.timeOfDay, k.employeePlanPeriod, k.date)
  }

  /** `toggle_availability`: retire the active row filling the slot and answer
      `(False, True)`, or add one and answer `(True, True)`. */
  function Toggle(db: Db, user: Id, dateText: string, tod: Id, now: Stamp): (o: Outcome<Result<(bool, bool), ToggleError>>)
    ensures o.value.Err? ==> o.db == db
    ensures o.value.Ok? ==> o.value.value.1
  {
    match Resolve(db.planPeriods, db.employeePlanPeriods, db.timesOfDay, user, dateText, tod)
    case Err(e) => Outcome(db, Err(e))
    case Ok(k) => ToggleSlot(db, k, now)
  }

  /** What a toggle does once its slot is known: refuse on two active rows,
      soft-delete the one that fills the slot, or add one. */
  function ToggleSlot(db: Db, k: Slot, now: Stamp): Outcome<Result<(bool, bool), ToggleError>> {
    var c := CountSlot(db.availabilities, k);
    if c > 1 then Outcome(db, Err(Conflict))
    else if c == 1 then Outcome(db.(availabilities := RetireAll(db.availabilities, k, now)), Ok((false, true)))
    else Outcome(db.(availabilities := db.availabilities + [NewAvailability(db.nextId, k, now)],
                     nextId := db.nextId + 1), Ok((true, true)))
  }

  /** Retiring a slot empties it and leaves every other slot's count alone. */
  lemma RetireAllCount(s: seq<Availability>, k: Slot, now: Stamp, k': Slot)
    ensures CountSlot(RetireAll(s, k, now), k') == if k' == k then 0 else CountSlot(s, k')
  {
    var r := RetireAll(s, k, now);
    if k' == k {
      CountSlotZero(r, k);
    } else {
      CountSlotSameFills(r, s, k');
    }
  }

  /** What a toggle does to the store when the lookups succeed: the slot's
      active count flips between 0 and 1 and the answer says which way; no
      other slot changes; the retired row is kept with only `prep_delete` set;
      the only other tables touched are none. Under the invariant the toggle
      never meets two active rows. */
  lemma ToggleEffect(db: Db, user: Id, dateText: string, tod: Id, now: Stamp)
    requires OneActiveAvailability(db.availabilities)
    ensures var o := Toggle(db, user, dateText, tod, now);
      && o.value != Err(Conflict)
      && o.db.persons == db.persons && o.db.projects == db.projects && o.db.teams == db.teams
      && o.db.planPeriods == db.planPeriods && o.db.employeePlanPeriods == db.employeePlanPeriods
      && o.db.timesOfDay == db.timesOfDay
      && match Resolve(db.planPeriods, db.employeePlanPeriods, db.timesOfDay, user, dateText, tod)
         case Err(e) => o.value == Err(e) && o.db == db
         case Ok(k) =>
           && o.value == Ok((CountSlot(db.availabilities, k) == 0, true))
           && CountSlot(o.db.availabilities, k) == 1 - CountSlot(db.availabilities, k)
           && (forall k' :: k' != k ==> CountSlot(o.db.availabilities, k') == CountSlot(db.availabilities, k'))
           && (CountSlot(db.availabilities, k) == 1 ==>
                 |o.db.availabilities| == |db.availabilities| && o.db.nextId == db.nextId)
           && (CountSlot(db.availabilities, k) == 0 ==>
                 && o.db.nextId == db.nextId + 1
                 && o.db.availabilities == db.availabilities +
                      [Availability(db.nextId, Unset, now, now, None, k.timeOfDay, k.employeePlanPeriod, k.date)])
           && (forall i :: 0 <= i < |db.availabilities| ==>
                 o.db.availabilities[i] == db.availabilities[i]
                 || (Fills(db.availabilities[i], k) && o.db.availabilities[i] == db.availabilities[i].(prepDelete := Some(now))))
  {
    match Resolve(db.planPeriods, db.employeePlanPeriods, db.timesOfDay, user, dateText, tod)
    case Err(e) =>
    case Ok(k) => ToggleSlotEffect(db, k, now);
  }

  /** The write step of a toggle on a known slot: the slot's count flips, no
      other slot changes, and the availabilities show a retire stamp or one
      appended row. */
  lemma ToggleSlotEffect(db: Db, k: Slot, now: Stamp)
    requires OneActiveAvailability(db.availabilities)
    ensures var o := ToggleSlot(db, k, now);
      && o.db.persons == db.persons && o.db.projects == db.projects && o.db.teams == db.teams
      && o.db.planPeriods == db.planPeriods && o.db.employeePlanPeriods == db.employeePlanPeriods
      && o.db.timesOfDay == db.timesOfDay
      && o.value == Ok((CountSlot(db.availabilities, k) == 0, true))
      && CountSlot(o.db.availabilities, k) == 1 - CountSlot(db.availabilities, k)
      && (forall k' :: k' != k ==> CountSlot(o.db.availabilities, k') == CountSlot(db.availabilities, k'))
      && (CountSlot(db.availabilities, k) == 1 ==>
            |o.db.availabilities| == |db.availabilities| && o.db.nextId == db.nextId)
      && (CountSlot(db.availabilities, k) == 0 ==>
            && o.db.nextId == db.nextId + 1
            && o.db.availabilities == db.availabilities +
                 [Availability(db.nextId, Unset, now, now, None, k.timeOfDay, k.employeePlanPeriod, k.date)])
      && (forall i :: 0 <= i < |db.availabilities| ==>
            o.db.availabilities[i] == db.availabilities[i]
            || (Fills(db.availabilities[i], k) && o.db.availabilities[i] == db.availabilities[i].(prepDelete := Some(now))))
  {
    var s := db.availabilities;
    var o := ToggleSlot(db, k, now);
    assert CountSlot(s, k) <= 1;
    if CountSlot(s, k) == 1 {
      forall k' ensures CountSlot(o.db.availabilities, k') == if k' == k then 0 else CountSlot(s, k') {
        RetireAllCount(s, k, now, k');
      }
    } else {
      var a := NewAvailability(db.nextId, k, now);
      forall k' ensures CountSlot(o.db.availabilities, k') == CountSlot(s, k') + (if k' == k then 1 else 0) {
        CountSlotSnoc(s, a, k');
      }
    }
  }

  /** Toggling keeps the store invariant. */
  lemma ToggleConsistent(db: Db, user: Id, dateText: string, tod: Id, now: Stamp)
    requires Consistent(db)
    ensures Consistent(Toggle(db, user, dateText, tod, now).db)
  {
    ToggleWriteOk(db, user, dateText, tod, now);
    AvailabilityWriteConsistent(db, Toggle(db, user, dateText, tod, now).db);
  }

  /** A toggle changes only the availabilities and the key counter, and keeps
      the availabilities' keys, references and the one-active-row rule. */
  lemma ToggleWriteOk(db: Db, user: Id, dateText: string, tod: Id, now: Stamp)
    requires AvailabilitiesOk(db) && OneActiveAvailability(db.availabilities)
    ensures var o := Toggle(db, user, dateText, tod, now);
      && o.db.(availabilities := db.availabilities, nextId := db.nextId) == db && o.db.nextId >= db.nextId
      && AvailabilitiesOk(o.db) && OneActiveAvailability(o.db.availabilities)
  {
    ToggleKeepsOne(db, user, dateText, tod, now);
    var r := Resolve(db.planPeriods, db.employeePlanPeriods, db.timesOfDay, user, dateText, tod);
    if r.Ok? {
      var k := r.value;
      ResolvedSlotOk(db, user, dateText, tod);
      if CountSlot(db.availabilities, k) == 0 {
        AddAvailabilityOk(db, NewAvailability(db.nextId, k, now));
      } else {
        RetireAllOk(db, k, now);
      }
    }
  }

  /** A resolved slot names a valid day, an existing time of day and an existing enrolment. */
  lemma ResolvedSlotOk(db: Db, user: Id, dateText: string, tod: Id)
    requires Resolve(db.planPeriods, db.employeePlanPeriods, db.timesOfDay, user, dateText, tod).Ok?
    ensures var k := Resolve(db.planPeriods, db.employeePlanPeriods, db.timesOfDay, user, dateText, tod).value;
      Valid(k.date) && HasTimeOfDay(db, k.timeOfDay) && HasEnrolment(db, k.employeePlanPeriod)
  {
  }

  /** The invariant survives a change of the availabilities alone that keeps them in order. */
  lemma AvailabilityWriteConsistent(db: Db, db': Db)
    requires Consistent(db)
    requires db'.(availabilities := db.availabilities, nextId := db.nextId) == db && db'.nextId >= db.nextId
    requires AvailabilitiesOk(db') && OneActiveAvailability(db'.availabilities)
    ensures Consistent(db')
  {
    OtherTablesOk(db, db');
    SameEnrolmentsOk(db, db');
  }

  /** Toggling never leaves two active rows in one slot. */
  lemma ToggleKeepsOne(db: Db, user: Id, dateText: string, tod: Id, now: Stamp)
    requires OneActiveAvailability(db.availabilities)
    ensures OneActiveAvailability(Toggle(db, user, dateText, tod, now).db.availabilities)
  {
    ToggleEffect(db, user, dateText, tod, now);
    match Resolve(db.planPeriods, db.employeePlanPeriods, db.timesOfDay, user, dateText, tod)
    case Err(e) =>
    case Ok(k) =>
      var s, t := db.availabilities, Toggle(db, user, dateText, tod, now).db.availabilities;
      forall k' ensures CountSlot(t, k') <= 1 {
        if k' != k { assert CountSlot(t, k') == CountSlot(s, k'); }
      }
  }

  lemma AddAvailabilityOk(db: Db, a: Availability)
    requires AvailabilitiesOk(db)
    requires a.id == db.nextId && Valid(a.date) && HasTimeOfDay(db, a.timeOfDay) && HasEnrolment(db, a.employeePlanPeriod)
    ensures AvailabilitiesOk(db.(availabilities := db.availabilities + [a], nextId := db.nextId + 1))
  {
    var db' := db.(availabilities := db.availabilities + [a], nextId := db.nextId + 1);
    assert forall x :: HasTimeOfDay(db, x) ==> HasTimeOfDay(db', x);
    assert forall x :: HasEnrolment(db, x) ==> HasEnrolment(db', x);
  }

  lemma RetireAllOk(db: Db, k: Slot, now: Stamp)
    requires AvailabilitiesOk(db)
    ensures AvailabilitiesOk(db.(availabilities := RetireAll(db.availabilities, k, now)))
  {
    var db' := db.(availabilities := RetireAll(db.availabilities, k, now));
    assert forall x :: HasTimeOfDay(db, x) ==> HasTimeOfDay(db', x);
    assert forall x :: HasEnrolment(db, x) ==> HasEnrolment(db', x);
  }

  /** A store whose other tables are the same and whose key counter is no
      smaller keeps those tables' keys below the counter and their references resolving. */
  lemma OtherTablesOk(db: Db, db': Db)
    requires PersonsOk(db) && ProjectsOk(db) && TeamsOk(db) && PlanPeriodsOk(db) && TimesOfDayOk(db)
    requires db'.persons == db.persons && db'.projects == db.projects && db'.teams == db.teams
    requires db'.planPeriods == db.planPeriods && db'.timesOfDay == db.timesOfDay && db'.nextId >= db.nextId
    ensures PersonsOk(db') && ProjectsOk(db') && TeamsOk(db') && PlanPeriodsOk(db') && TimesOfDayOk(db')
  {
    PeopleTablesOk(db, db');
    CalendarTablesOk(db, db');
  }

  lemma CalendarTablesOk(db: Db, db': Db)
    requires PersonsOk(db) && PlanPeriodsOk(db) && TimesOfDayOk(db)
    requires db'.persons == db.persons && db'.teams == db.teams
    requires db'.planPeriods == db.planPeriods && db'.timesOfDay == db.timesOfDay && db'.nextId >= db.nextId
    ensures PersonsOk(db') && PlanPeriodsOk(db') && TimesOfDayOk(db')
  {
    assert forall x :: HasPerson(db, x) ==> HasPerson(db', x);
    assert forall x :: HasTeam(db, x) ==> HasTeam(db', x);
  }

  lemma PeopleTablesOk(db: Db, db': Db)
    requires ProjectsOk(db) && TeamsOk(db)
    requires db'.persons == db.persons && db'.projects == db.projects && db'.teams == db.teams && db'.nextId >= db.nextId
    ensures ProjectsOk(db') && TeamsOk(db')
  {
    assert forall x :: HasPerson(db, x) ==> HasPerson(db', x);
    assert forall x :: HasProject(db, x) ==> HasProject(db', x);
  }

  lemma SameEnrolmentsOk(db: Db, db': Db)
    requires EnrolmentsOk(db)
    requires db'.persons == db.persons && db'.planPeriods == db.planPeriods
    requires db'.employeePlanPeriods == db.employeePlanPeriods && db'.nextId >= db.nextId
    ensures EnrolmentsOk(db')
  {
    assert forall x :: HasPerson(db, x) ==> HasPerson(db', x);
    assert forall x :: HasPlanPeriod(db, x) ==> HasPlanPeriod(db', x);
  }

  /** Two toggles of the same slot undo each other: the answers are opposite and
      the slot's active count is back where it started. */
  lemma ToggleTwice(db: Db, user: Id, dateText: string, tod: Id, now1: Stamp, now2: Stamp)
    requires OneActiveAvailability(db.availabilities)
    requires Toggle(db, user, dateText, tod, now1).value.Ok?
    ensures var o1 := Toggle(db, user, dateText, tod, now1);
            var o2 := Toggle(o1.db, user, dateText, tod, now2);
      && o2.value.Ok? && o2.value.value.0 == !o1.value.value.0
      && var k := Resolve(db.planPeriods, db.employeePlanPeriods, db.timesOfDay, user, dateText, tod).value;
         CountSlot(o2.db.availabilities, k) == CountSlot(db.availabilities, k)
  {
    var o1 := Toggle(db, user, dateText, tod, now1);
    ToggleEffect(db, user, dateText, tod, now1);
    ToggleKeepsOne(db, user, dateText, tod, now1);
    ToggleEffect(o1.db, user, dateText, tod, now2);
  }

  // ---------------------------------------------------------------------------
  // Saving the notes of an enrolment.
  // ---------------------------------------------------------------------------

  datatype NoteError =
    | InvalidInput   // the text is not two `dd.mm.yy` dates joined by " - "
    | UnknownPerson  // no person has the id

  /** An active plan period with exactly these first and last days. */
  predicate Spans(p: PlanPeriod, start: Date, end: Date) { p.Active() && p.start == start && p.end == end }

  /** `save_note`: find the active plan period the label names; if there is
      none answer `False`. Otherwise overwrite the notes of the person's first
      active enrolment in it, or create the enrolment with the notes, and
      answer `True`. */
  function SaveNote(db: Db, user: Id, periodText: string, notes: Option<string>, now: Stamp): (o: Outcome<Result<bool, NoteError>>)
    ensures o.db.planPeriods == db.planPeriods && o.db.persons == db.persons
    ensures o.value != Ok(true) ==> o.db == db
    ensures o.value == Err(InvalidInput) <==> ParseLabel(periodText).None?
    ensures o.value == Ok(false) <==>
      ParseLabel(periodText).Some? &&
      forall i :: 0 <= i < |db.planPeriods| ==>
        !Spans(db.planPeriods[i], ParseLabel(periodText).value.0, ParseLabel(periodText).value.1)
    ensures o.value == Err(UnknownPerson) <==>
      ParseLabel(periodText).Some? && !HasPerson(db, user) &&
      exists i :: 0 <= i < |db.planPeriods| &&
        Spans(db.planPeriods[i], ParseLabel(periodText).value.0, ParseLabel(periodText).value.1)
    ensures o.value == Ok(true) <==>
      ParseLabel(periodText).Some? && HasPerson(db, user) &&
      exists i :: 0 <= i < |db.planPeriods| &&
        Spans(db.planPeriods[i], ParseLabel(periodText).value.0, ParseLabel(periodText).value.1)
  {
    match ParseLabel(periodText)
    case None => Outcome(db, Err(InvalidInput))
    case Some((start, end)) =>
      match FirstWhere(db.planPeriods, (p: PlanPeriod) => Spans(p, start, end))
      case None => Outcome(db, Ok(false))
      case Some(i) =>
        if !HasPerson(db, user) then Outcome(db, Err(UnknownPerson))
        else Outcome(NoteWritten(db, user, db.planPeriods[i].id, notes, now), Ok(true))
  }

  /** The write `save_note` makes once period and person are known: overwrite
      the notes of the person's first active enrolment in the period, or
      append a new enrolment carrying them. */
  function NoteWritten(db: Db, user: Id, period: Id, notes: Option<string>, now: Stamp): Db {
    var enrolments := db.employeePlanPeriods;
    match FirstWhere(enrolments, (e: EmployeePlanPeriod) => Enrols(e, user, period))
    case None =>
      var e := EmployeePlanPeriod(db.nextId, notes, now, now, None, period, user);
      db.(employeePlanPeriods := enrolments + [e], nextId := db.nextId + 1)
    case Some(j) =>
      db.(employeePlanPeriods := enrolments[j := enrolments[j].(notes := notes, latestChange := now)])
  }

  /** The plan period `save_note` writes to: the first active one with the
      label's dates. */
  function NotedPeriod(db: Db, periodText: string): Option<nat> {
    match ParseLabel(periodText)
    case None => None
    case Some((start, end)) => FirstWhere(db.planPeriods, (p: PlanPeriod) => Spans(p, start, end))
  }

  /** A successful save leaves the person with exactly one active enrolment in
      the period the label names, carrying the notes; an existing enrolment
      keeps its key and only its notes and `latest_change` change; a new one
      gets a fresh key. No other table changes, and no other person's or
      period's enrolments. */
  lemma SaveNoteEffect(db: Db, user: Id, periodText: string, notes: Option<string>, now: Stamp)
    requires OneActiveEnrolment(db.employeePlanPeriods)
    requires SaveNote(db, user, periodText, notes, now).value == Ok(true)
    ensures NotedPeriod(db, periodText).Some? && HasPerson(db, user)
    ensures var o := SaveNote(db, user, periodText, notes, now);
            var period := db.planPeriods[NotedPeriod(db, periodText).value].id;
            var s, t := db.employeePlanPeriods, o.db.employeePlanPeriods;
      && o.db.(employeePlanPeriods := s, nextId := db.nextId) == db
      && CountEnrolments(t, user, period) == 1
      && (forall j :: 0 <= j < |t| && Enrols(t[j], user, period) ==> t[j].notes == notes && t[j].latestChange == now)
      && (forall p: Id, q: Id :: (p, q) != (user, period) ==> CountEnrolments(t, p, q) == CountEnrolments(s, p, q))
      && EnrolmentWrite(db, o.db, user, period, notes, now)
  {
    var period := db.planPeriods[NotedPeriod(db, periodText).value].id;
    assert SaveNote(db, user, periodText, notes, now).db == NoteWritten(db, user, period, notes, now);
    NoteWrittenEffect(db, user, period, notes, now);
  }

  /** The write itself: the person ends with one active enrolment in the
      period, carrying the notes, and no other person's or period's counts change. */
  lemma NoteWrittenEffect(db: Db, user: Id, period: Id, notes: Option<string>, now: Stamp)
    requires OneActiveEnrolment(db.employeePlanPeriods)
    ensures var db' := NoteWritten(db, user, period, notes, now);
            var s, t := db.employeePlanPeriods, db'.employeePlanPeriods;
      && db'.(employeePlanPeriods := s, nextId := db.nextId) == db
      && CountEnrolments(t, user, period) == 1
      && (forall j :: 0 <= j < |t| && Enrols(t[j], user, period) ==> t[j].notes == notes && t[j].latestChange == now)
      && (forall p: Id, q: Id :: (p, q) != (user, period) ==> CountEnrolments(t, p, q) == CountEnrolments(s, p, q))
      && EnrolmentWrite(db, db', user, period, notes, now)
  {
    var s := db.employeePlanPeriods;
    var found := FirstWhere(s, (e: EmployeePlanPeriod) => Enrols(e, user, period));
    CountEnrolmentsZero(s, user, period);
    if found.None? {
      CreatedEnrolment(s, EmployeePlanPeriod(db.nextId, notes, now, now, None, period, user));
    } else {
      UpdatedEnrolment(s, found.value, notes, now);
    }
  }

  lemma CreatedEnrolment(s: seq<EmployeePlanPeriod>, e: EmployeePlanPeriod)
    requires e.Active() && CountEnrolments(s, e.person, e.planPeriod) == 0
    ensures CountEnrolments(s + [e], e.person, e.planPeriod) == 1
    ensures forall p: Id, q: Id :: (p, q) != (e.person, e.planPeriod) ==> CountEnrolments(s + [e], p, q) == CountEnrolments(s, p, q)
    ensures forall j :: 0 <= j < |s| + 1 && Enrols((s + [e])[j], e.person, e.planPeriod) ==> (s + [e])[j] == e
  {
    forall p: Id, q: Id ensures CountEnrolments(s + [e], p, q) == CountEnrolments(s, p, q) + (if Enrols(e, p, q) then 1 else 0) {
      CountEnrolmentsSnoc(s, e, p, q);
    }
    CountEnrolmentsZero(s, e.person, e.planPeriod);
  }

  lemma UpdatedEnrolment(s: seq<EmployeePlanPeriod>, j0: nat, notes: Option<string>, now: Stamp)
    requires OneActiveEnrolment(s) && j0 < |s| && s[j0].Active()
    ensures var t := s[j0 := s[j0].(notes := notes, latestChange := now)];
      && (forall p: Id, q: Id :: CountEnrolments(t, p, q) == CountEnrolments(s, p, q))
      && (forall j :: 0 <= j < |s| && Enrols(s[j], s[j0].person, s[j0].planPeriod) ==> j == j0)
  {
    var t := s[j0 := s[j0].(notes := notes, latestChange := now)];
    forall p: Id, q: Id ensures CountEnrolments(t, p, q) == CountEnrolments(s, p, q) {
      CountEnrolmentsSame(t, s, p, q);
    }
    forall j | 0 <= j < |s| && Enrols(s[j], s[j0].person, s[j0].planPeriod) ensures j == j0 {
      OnlyEnrolment(s, s[j0].person, s[j0].planPeriod, j, j0);
    }
  }

  /** Under the invariant, two active enrolments of one person in one period are the same row. */
  lemma {:induction false} OnlyEnrolment(s: seq<EmployeePlanPeriod>, person: Id, period: Id, i: nat, j: nat)
    requires OneActiveEnrolment(s)
    requires i < |s| && j < |s| && Enrols(s[i], person, period) && Enrols(s[j], person, period)
    ensures i == j
  {
    if i != j {
      TwoEnrolments(s, person, period, if i < j then i else j, if i < j then j else i);
    }
  }

  lemma {:induction false} TwoEnrolments(s: seq<EmployeePlanPeriod>, person: Id, period: Id, i: nat, j: nat)
    requires i < j < |s| && Enrols(s[i], person, period) && Enrols(s[j], person, period)
    ensures CountEnrolments(s, person, period) >= 2
    decreases |s|
  {
    var init := s[..|s| - 1];
    if j < |s| - 1 {
      TwoEnrolments(init, person, period, i, j);
    } else {
      CountEnrolmentsZero(init, person, period);
      assert init[i] == s[i];
    }
  }

  /** Saving notes keeps the store invariant. */
  lemma SaveNoteConsistent(db: Db, user: Id, periodText: string, notes: Option<string>, now: Stamp)
    requires Consistent(db)
    ensures Consistent(SaveNote(db, user, periodText, notes, now).db)
  {
    var o := SaveNote(db, user, periodText, notes, now);
    if o.value == Ok(true) {
      SaveNoteEffect(db, user, periodText, notes, now);
      var period := db.planPeriods[NotedPeriod(db, periodText).value].id;
      EnrolmentWriteConsistent(db, o.db, user, period, notes, now);
    }
  }

  /** The invariant survives an enrolment write of the shape `SaveNoteEffect` describes. */
  lemma EnrolmentWriteConsistent(db: Db, db': Db, user: Id, period: Id, notes: Option<string>, now: Stamp)
    requires Consistent(db) && HasPerson(db, user) && HasPlanPeriod(db, period)
    requires db'.(employeePlanPeriods := db.employeePlanPeriods, nextId := db.nextId) == db
    requires CountEnrolments(db'.employeePlanPeriods, user, period) == 1
    requires forall p: Id, q: Id :: (p, q) != (user, period) ==>
      CountEnrolments(db'.employeePlanPeriods, p, q) == CountEnrolments(db.employeePlanPeriods, p, q)
    requires EnrolmentWrite(db, db', user, period, notes, now)
    ensures Consistent(db')
  {
    var s, t := db.employeePlanPeriods, db'.employeePlanPeriods;
    assert OneActiveEnrolment(t) by {
      forall p: Id, q: Id ensures CountEnrolments(t, p, q) <= 1 {
        if (p, q) != (user, period) {
          assert CountEnrolments(s, p, q) <= 1;
        }
      }
    }
    EnrolmentWriteOk(db, db', user, period, notes, now);
    OtherTablesOk(db, db');
  }

  /** The enrolment table after a save: the new enrolment appended, or the
      person's active enrolment in the period rewritten in place. */
  predicate EnrolmentWrite(db: Db, db': Db, user: Id, period: Id, notes: Option<string>, now: Stamp) {
    var s, t := db.employeePlanPeriods, db'.employeePlanPeriods;
    if CountEnrolments(s, user, period) == 0
    then t == s + [EmployeePlanPeriod(db.nextId, notes, now, now, None, period, user)] && db'.nextId == db.nextId + 1
    else |t| == |s| && db'.nextId == db.nextId &&
         forall j :: 0 <= j < |s| ==>
           t[j] == if Enrols(s[j], user, period) then s[j].(notes := notes, latestChange := now) else s[j]
  }

  lemma EnrolmentWriteOk(db: Db, db': Db, user: Id, period: Id, notes: Option<string>, now: Stamp)
    requires EnrolmentsOk(db) && AvailabilitiesOk(db) && HasPerson(db, user) && HasPlanPeriod(db, period)
    requires db'.(employeePlanPeriods := db.employeePlanPeriods, nextId := db.nextId) == db
    requires EnrolmentWrite(db, db', user, period, notes, now)
    ensures EnrolmentsOk(db') && AvailabilitiesOk(db')
  {
    if CountEnrolments(db.employeePlanPeriods, user, period) == 0 {
      AddEnrolmentOk(db, EmployeePlanPeriod(db.nextId, notes, now, now, None, period, user));
      assert db' == db.(employeePlanPeriods := db'.employeePlanPeriods, nextId := db.nextId + 1);
    } else {
      ChangeEnrolmentOk(db, db');
    }
  }

  lemma AddEnrolmentOk(db: Db, e: EmployeePlanPeriod)
    requires EnrolmentsOk(db) && AvailabilitiesOk(db)
    requires e.id == db.nextId && HasPlanPeriod(db, e.planPeriod) && HasPerson(db, e.person)
    ensures var db' := db.(employeePlanPeriods := db.employeePlanPeriods + [e], nextId := db.nextId + 1);
      EnrolmentsOk(db') && AvailabilitiesOk(db')
  {
    var db' := db.(employeePlanPeriods := db.employeePlanPeriods + [e], nextId := db.nextId + 1);
    assert forall j :: 0 <= j < |db.employeePlanPeriods| ==> db'.employeePlanPeriods[j] == db.employeePlanPeriods[j];
    assert forall x :: HasPerson(db, x) ==> HasPerson(db', x);
    assert forall x :: HasPlanPeriod(db, x) ==> HasPlanPeriod(db', x);
    assert forall x :: HasEnrolment(db, x) ==> HasEnrolment(db', x);
    assert forall x :: HasTimeOfDay(db, x) ==> HasTimeOfDay(db', x);
  }

  /** Rewriting enrolments in place, keeping their keys and references, keeps the tables sound. */
  lemma ChangeEnrolmentOk(db: Db, db': Db)
    requires EnrolmentsOk(db) && AvailabilitiesOk(db)
    requires db' == db.(employeePlanPeriods := db'.employeePlanPeriods)
    requires |db'.employeePlanPeriods| == |db.employeePlanPeriods|
    requires forall j :: 0 <= j < |db.employeePlanPeriods| ==>
      var e, e' := db.employeePlanPeriods[j], db'.employeePlanPeriods[j];
      e'.id == e.id && e'.planPeriod == e.planPeriod && e'.person == e.person
    ensures EnrolmentsOk(db') && AvailabilitiesOk(db')
  {
    assert forall x :: HasPerson(db, x) ==> HasPerson(db', x);
    assert forall x :: HasPlanPeriod(db, x) ==> HasPlanPeriod(db', x);
    assert forall x :: HasEnrolment(db, x) ==> HasEnrolment(db', x);
    assert forall x :: HasTimeOfDay(db, x) ==> HasTimeOfDay(db', x);
  }

  /** A label written from an active plan period whose years the two-digit
      year window covers is read back to that period's dates, so saving notes
      under it succeeds for a known person and writes to a period with exactly
      those dates. */
  lemma SaveNoteOnLabel(db: Db, user: Id, i: nat, notes: Option<string>, now: Stamp)
    requires i < |db.planPeriods| && db.planPeriods[i].Active() && HasPerson(db, user)
    requires Wellformed(db.planPeriods[i].start) && Wellformed(db.planPeriods[i].end)
    requires 1969 <= db.planPeriods[i].start.year <= 2068 && 1969 <= db.planPeriods[i].end.year <= 2068
    ensures var p := db.planPeriods[i];
            var text := Label(p.start, p.end);
      && SaveNote(db, user, text, notes, now).value == Ok(true)
      && NotedPeriod(db, text).Some?
      && db.planPeriods[NotedPeriod(db, text).value].start == p.start
      && db.planPeriods[NotedPeriod(db, text).value].end == p.end
  {
    var p := db.planPeriods[i];
    LabelRoundTripInWindow(p.start, p.end);
    SaveNoteParsed(db, user, Label(p.start, p.end), i, notes, now);
  }

  /** Saving under a text that parses to an active period's dates succeeds for
      a known person. */
  lemma SaveNoteParsed(db: Db, user: Id, text: string, i: nat, notes: Option<string>, now: Stamp)
    requires i < |db.planPeriods| && db.planPeriods[i].Active() && HasPerson(db, user)
    requires ParseLabel(text) == Some((db.planPeriods[i].start, db.planPeriods[i].end))
    ensures SaveNote(db, user, text, notes, now).value == Ok(true)
    ensures NotedPeriod(db, text).Some?
    ensures db.planPeriods[NotedPeriod(db, text).value].start == db.planPeriods[i].start
    ensures db.planPeriods[NotedPeriod(db, text).value].end == db.planPeriods[i].end
  {
    assert Spans(db.planPeriods[i], db.planPeriods[i].start, db.planPeriods[i].end);
  }
}
