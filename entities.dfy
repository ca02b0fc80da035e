/** The records of the availability store, one datatype per entity of the
    schema, and the store itself: every table in insertion order, with the
    primary keys, references, unique keys and value ranges the schema declares,
    and the two uniqueness rules that only the operations' lookup-before-create
    logic upholds. */
module Entities {
  import opened Wrappers
  import opened Dates
  import opened Formats

  /** A primary key. The schema draws UUIDs; the model draws fresh numbers from
      the store's counter. */
  type Id = nat

  /** A `datetime` value, as a number on one clock. */
  type Stamp = int

  /** What an `Optional(str)` column holds when the constructor is not given
      a value: the ORM's default for optional strings, the empty string. */
  const Unset: Option<string> := Some("")

  datatype Availability = Availability(
    id: Id, notes: Option<string>,
    createdAt: Stamp, latestChange: Stamp, prepDelete: Option<Stamp>,
    timeOfDay: Id, employeePlanPeriod: Id, date: Date)
  {
    /** Every record is active while its soft-delete marker is unset. */
    predicate Active() { prepDelete.None? }
  }

  /** A slot a person can be available in; `start` is what the store hands
      back, a time or, in older rows, text. `delta` is the slot's length in seconds. */
  datatype TimeOfDay = TimeOfDay(
    id: Id, name: string, start: StartValue, delta: int, color: Option<string>, notes: Option<string>,
    createdAt: Stamp, latestChange: Stamp, prepDelete: Option<Stamp>,
    person: Id)
  {
    predicate Active() { prepDelete.None? }
  }

  datatype PlanPeriod = PlanPeriod(
    id: Id, start: Date, end: Date, deadline: Date, notes: Option<string>,
    createdAt: Stamp, latestChange: Stamp, prepDelete: Option<Stamp>,
    team: Id)
  {
    predicate Active() { prepDelete.None? }
  }

  datatype Person = Person(
    id: Id, fName: string, lName: Option<string>, artistName: Option<string>, email: string,
    username: string, password: string,
    createdAt: Stamp, latestChange: Stamp, prepDelete: Option<Stamp>,
    team: Option<Id>)
  {
    predicate Active() { prepDelete.None? }
  }

  datatype Project = Project(
    id: Id, name: string, active: bool,
    createdAt: Stamp, latestChange: Stamp, prepDelete: Option<Stamp>,
    admin: Id)
  {
    predicate Active() { prepDelete.None? }
  }

  datatype Team = Team(
    id: Id, name: string,
    createdAt: Stamp, latestChange: Stamp, prepDelete: Option<Stamp>,
    dispatcher: Id, project: Id)
  {
    predicate Active() { prepDelete.None? }
  }

  /** The enrolment of a person in a plan period. */
  datatype EmployeePlanPeriod = EmployeePlanPeriod(
    id: Id, notes: Option<string>,
    createdAt: Stamp, latestChange: Stamp, prepDelete: Option<Stamp>,
    planPeriod: Id, person: Id)
  {
    predicate Active() { prepDelete.None? }
  }

  /** The whole store. `nextId` is larger than every key handed out so far. */
  datatype Db = Db(
    persons: seq<Person>, projects: seq<Project>, teams: seq<Team>,
    planPeriods: seq<PlanPeriod>, employeePlanPeriods: seq<EmployeePlanPeriod>,
    timesOfDay: seq<TimeOfDay>, availabilities: seq<Availability>,
    nextId: Id)

  // ---------------------------------------------------------------------------
  // References.
  // ---------------------------------------------------------------------------

  predicate HasPerson(db: Db, id: Id) { exists i :: 0 <= i < |db.persons| && db.persons[i].id == id }
  predicate HasProject(db: Db, id: Id) { exists i :: 0 <= i < |db.projects| && db.projects[i].id == id }
  predicate HasTeam(db: Db, id: Id) { exists i :: 0 <= i < |db.teams| && db.teams[i].id == id }
  predicate HasPlanPeriod(db: Db, id: Id) { exists i :: 0 <= i < |db.planPeriods| && db.planPeriods[i].id == id }
  predicate HasEnrolment(db: Db, id: Id) {
    exists i :: 0 <= i < |db.employeePlanPeriods| && db.employeePlanPeriods[i].id == id
  }
  predicate HasTimeOfDay(db: Db, id: Id) { exists i :: 0 <= i < |db.timesOfDay| && db.timesOfDay[i].id == id }

  /** `person.project_of_admin is not None`: the reverse side of `Project.admin`. */
  predicate IsAdmin(db: Db, person: Id) { exists i :: 0 <= i < |db.projects| && db.projects[i].admin == person }

  /** A `Required(str, n)` value: not empty and at most `n` characters. */
  predicate RequiredText(s: string, n: nat) { 0 < |s| <= n }

  /** An `Optional(str, n)` value: at most `n` characters when present. */
  predicate OptionalText(s: Option<string>, n: nat) { s.Some? ==> |s.value| <= n }

  // ---------------------------------------------------------------------------
  // One table at a time: keys below the counter and distinct, references that
  // resolve, the schema's value ranges and unique keys.
  // ---------------------------------------------------------------------------

  predicate PersonsOk(db: Db) {
    var s := db.persons;
    && (forall i :: 0 <= i < |s| ==>
          && s[i].id < db.nextId
          && RequiredText(s[i].fName, 50) && OptionalText(s[i].lName, 50) && OptionalText(s[i].artistName, 50)
          && RequiredText(s[i].email, 50) && RequiredText(s[i].username, 50) && |s[i].password| > 0
          && (s[i].team.Some? ==> HasTeam(db, s[i].team.value)))
    && (forall i, j :: 0 <= i < j < |s| ==> s[i].id != s[j].id && s[i].username != s[j].username)
  }

  predicate ProjectsOk(db: Db) {
    var s := db.projects;
    && (forall i :: 0 <= i < |s| ==> s[i].id < db.nextId && RequiredText(s[i].name, 50) && HasPerson(db, s[i].admin))
    && (forall i, j :: 0 <= i < j < |s| ==> s[i].id != s[j].id && s[i].name != s[j].name && s[i].admin != s[j].admin)
  }

  predicate TeamsOk(db: Db) {
    var s := db.teams;
    && (forall i :: 0 <= i < |s| ==>
          s[i].id < db.nextId && RequiredText(s[i].name, 50) && HasPerson(db, s[i].dispatcher) && HasProject(db, s[i].project))
    && (forall i, j :: 0 <= i < j < |s| ==> s[i].id != s[j].id && s[i].name != s[j].name)
  }

  /** Start, end and deadline are dates; no order between them is required. */
  predicate PlanPeriodsOk(db: Db) {
    var s := db.planPeriods;
    && (forall i :: 0 <= i < |s| ==>
          s[i].id < db.nextId && Valid(s[i].start) && Valid(s[i].end) && Valid(s[i].deadline) && HasTeam(db, s[i].team))
    && (forall i, j :: 0 <= i < j < |s| ==> s[i].id != s[j].id)
  }

  predicate TimesOfDayOk(db: Db) {
    var s := db.timesOfDay;
    && (forall i :: 0 <= i < |s| ==>
          s[i].id < db.nextId && RequiredText(s[i].name, 40) && OptionalText(s[i].color, 20) && HasPerson(db, s[i].person))
    && (forall i, j :: 0 <= i < j < |s| ==> s[i].id != s[j].id && (s[i].person, s[i].name) != (s[j].person, s[j].name))
  }

  predicate EnrolmentsOk(db: Db) {
    var s := db.employeePlanPeriods;
    && (forall i :: 0 <= i < |s| ==> s[i].id < db.nextId && HasPlanPeriod(db, s[i].planPeriod) && HasPerson(db, s[i].person))
    && (forall i, j :: 0 <= i < j < |s| ==> s[i].id != s[j].id)
  }

  predicate AvailabilitiesOk(db: Db) {
    var s := db.availabilities;
    && (forall i :: 0 <= i < |s| ==>
          s[i].id < db.nextId && Valid(s[i].date)
          && HasTimeOfDay(db, s[i].timeOfDay) && HasEnrolment(db, s[i].employeePlanPeriod))
    && (forall i, j :: 0 <= i < j < |s| ==> s[i].id != s[j].id)
  }

  // ---------------------------------------------------------------------------
  // The rules the schema does not declare: one active availability per slot,
  // and one active enrolment per person and plan period.
  // ---------------------------------------------------------------------------

  /** What an availability is keyed by: the enrolment, the slot and the day. */
  datatype Slot = Slot(employeePlanPeriod: Id, timeOfDay: Id, date: Date)

  function SlotOf(a: Availability): Slot { Slot(a.employeePlanPeriod, a.timeOfDay, a.date) }

  predicate Fills(a: Availability, k: Slot) { a.Active() && SlotOf(a) == k }

  /** How many active availabilities fill slot `k`. */
  function CountSlot(s: seq<Availability>, k: Slot): nat
    decreases |s|
  {
    if s == [] then 0
    else CountSlot(s[..|s| - 1], k) + (if Fills(s[|s| - 1], k) then 1 else 0)
  }

  ghost predicate OneActiveAvailability(s: seq<Availability>) { forall k :: CountSlot(s, k) <= 1 }

  predicate Enrols(e: EmployeePlanPeriod, person: Id, period: Id) {
    e.Active() && e.person == person && e.planPeriod == period
  }

  /** How many active enrolments put `person` into plan period `period`. */
  function CountEnrolments(s: seq<EmployeePlanPeriod>, person: Id, period: Id): nat
    decreases |s|
  {
    if s == [] then 0
    else CountEnrolments(s[..|s| - 1], person, period) + (if Enrols(s[|s| - 1], person, period) then 1 else 0)
  }

  ghost predicate OneActiveEnrolment(s: seq<EmployeePlanPeriod>) {
    forall person, period :: CountEnrolments(s, person, period) <= 1
  }

  /** The store invariant. */
  ghost predicate Consistent(db: Db) {
    && PersonsOk(db) && ProjectsOk(db) && TeamsOk(db) && PlanPeriodsOk(db)
    && TimesOfDayOk(db) && EnrolmentsOk(db) && AvailabilitiesOk(db)
    && OneActiveAvailability(db.availabilities)
    && OneActiveEnrolment(db.employeePlanPeriods)
  }

  /** The store with nothing in it. */
  const Empty := Db([], [], [], [], [], [], [], 0)

  lemma EmptyValid()
    ensures Consistent(Empty)
  {
    assert forall k :: CountSlot([], k) == 0;
    assert forall p, q :: CountEnrolments([], p, q) == 0;
  }

  // ---------------------------------------------------------------------------
  // Counting.
  // ---------------------------------------------------------------------------

  /** A slot is counted exactly when some active row fills it. */
  lemma {:induction false} CountSlotZero(s: seq<Availability>, k: Slot)
    ensures CountSlot(s, k) == 0 <==> forall i :: 0 <= i < |s| ==> !Fills(s[i], k)
    decreases |s|
  {
    if s != [] {
      var init := s[..|s| - 1];
      CountSlotZero(init, k);
      assert forall i :: 0 <= i < |init| ==> init[i] == s[i];
    }
  }

  lemma CountSlotSnoc(s: seq<Availability>, a: Availability, k: Slot)
    ensures CountSlot(s + [a], k) == CountSlot(s, k) + (if Fills(a, k) then 1 else 0)
  {
    assert (s + [a])[..|s|] == s;
  }

  /** A position-wise change that keeps every row's active state and slot keeps every count. */
  lemma {:induction false} CountSlotSameFills(s: seq<Availability>, t: seq<Availability>, k: Slot)
    requires |s| == |t|
    requires forall i :: 0 <= i < |s| ==> (Fills(s[i], k) <==> Fills(t[i], k))
    ensures CountSlot(s, k) == CountSlot(t, k)
    decreases |s|
  {
    if s != [] {
      CountSlotSameFills(s[..|s| - 1], t[..|t| - 1], k);
    }
  }

  lemma {:induction false} CountEnrolmentsZero(s: seq<EmployeePlanPeriod>, person: Id, period: Id)
    ensures CountEnrolments(s, person, period) == 0 <==> forall i :: 0 <= i < |s| ==> !Enrols(s[i], person, period)
    decreases |s|
  {
    if s != [] {
      var init := s[..|s| - 1];
      CountEnrolmentsZero(init, person, period);
      assert forall i :: 0 <= i < |init| ==> init[i] == s[i];
    }
  }

  lemma CountEnrolmentsSnoc(s: seq<EmployeePlanPeriod>, e: EmployeePlanPeriod, person: Id, period: Id)
    ensures CountEnrolments(s + [e], person, period) ==
            CountEnrolments(s, person, period) + (if Enrols(e, person, period) then 1 else 0)
  {
    assert (s + [e])[..|s|] == s;
  }

  lemma {:induction false} CountEnrolmentsSame(s: seq<EmployeePlanPeriod>, t: seq<EmployeePlanPeriod>, person: Id, period: Id)
    requires |s| == |t|
    requires forall i :: 0 <= i < |s| ==> (Enrols(s[i], person, period) <==> Enrols(t[i], person, period))
    ensures CountEnrolments(s, person, period) == CountEnrolments(t, person, period)
    decreases |s|
  {
    if s != [] {
      CountEnrolmentsSame(s[..|s| - 1], t[..|t| - 1], person, period);
    }
  }

  /** Under the invariant two active rows never fill the same slot. */
  lemma {:induction false} OneActiveAvailabilityPairwise(s: seq<Availability>, i: nat, j: nat)
    requires OneActiveAvailability(s)
    requires i < j < |s| && s[i].Active() && s[j].Active()
    ensures SlotOf(s[i]) != SlotOf(s[j])
  {
    if SlotOf(s[i]) == SlotOf(s[j]) {
      TwoFill(s, SlotOf(s[i]), i, j);
    }
  }

  lemma {:induction false} TwoFill(s: seq<Availability>, k: Slot, i: nat, j: nat)
    requires i < j < |s| && Fills(s[i], k) && Fills(s[j], k)
    ensures CountSlot(s, k) >= 2
    decreases |s|
  {
    var init := s[..|s| - 1];
    if j < |s| - 1 {
      TwoFill(init, k, i, j);
    } else {
      CountSlotZero(init, k);
      assert init[i] == s[i];
    }
  }
}
