/** The database session as an object whose tables the writing operations
    change in place. Each method works step by step the way the helpers do
    (first match in store order or least key, counting the matches of a
    `get`, soft delete of the hit, append of a new row) and is proved to leave the tables exactly
    as the value-level functions `DbHelpers.Toggle`, `DbHelpers.SaveNote` and
    `Repair.EnsureEnrolments` say, with the same answer. */
module Store {
  import opened Wrappers
  import opened Seqs
  import opened Dates
  import opened Formats
  import opened Entities
  import opened DbHelpers
  import opened Repair

  /** Soft-deleting the one row that fills a slot is what `RetireAll` does. */
  lemma RetireOnly(s: seq<Availability>, k: Slot, now: Stamp, h: nat)
    requires h < |s| && Fills(s[h], k) && CountSlot(s, k) == 1
    ensures RetireAll(s, k, now) == s[h := s[h].(prepDelete := Some(now))]
  {
    forall j | 0 <= j < |s| && j != h ensures !Fills(s[j], k) {
      if Fills(s[j], k) {
        if j < h { TwoFill(s, k, j, h); } else { TwoFill(s, k, h, j); }
      }
    }
  }

  /** A loop that stops at the first `i` where `p` holds computes `FirstWhere`. */
  lemma FirstWhereAt<T>(s: seq<T>, p: T -> bool, i: nat)
    requires i <= |s| && (forall j :: 0 <= j < i ==> !p(s[j])) && (i < |s| ==> p(s[i]))
    ensures FirstWhere(s, p) == if i < |s| then Some(i) else None
  {
    var r := FirstWhere(s, p);
    if r.Some? {
      assert !(r.value < i) && !(i < r.value);
    }
  }

  class Database {
    var persons: seq<Person>
    var projects: seq<Project>
    var teams: seq<Team>
    var planPeriods: seq<PlanPeriod>
    var employeePlanPeriods: seq<EmployeePlanPeriod>
    var timesOfDay: seq<TimeOfDay>
    var availabilities: seq<Availability>
    var nextId: nat

    /** The tables as one value. */
    function Snapshot(): (db: Db)
      reads this
      ensures db.availabilities == availabilities && db.employeePlanPeriods == employeePlanPeriods
      ensures db.planPeriods == planPeriods && db.nextId == nextId
    {
      Db(persons, projects, teams, planPeriods, employeePlanPeriods, timesOfDay, availabilities, nextId)
    }

    ghost predicate Valid()
      reads this
    {
      Consistent(Snapshot())
    }

    constructor (db: Db)
      ensures Snapshot() == db
    {
      persons, projects, teams := db.persons, db.projects, db.teams;
      planPeriods, employeePlanPeriods := db.planPeriods, db.employeePlanPeriods;
      timesOfDay, availabilities, nextId := db.timesOfDay, db.availabilities, db.nextId;
    }

    /** `.first()` of the active plan periods covering `d`: a scan that keeps
        the covering period with the least key met so far. */
    method FindCoveringPeriod(d: Date) returns (i: nat)
      ensures i <= |planPeriods|
      ensures LeastWhere(planPeriods, (p: PlanPeriod) => p.id, (p: PlanPeriod) => Covers(p, d))
              == if i < |planPeriods| then Some(i) else None
    {
      var best: Option<nat> := None;
      for k := 0 to |planPeriods|
        invariant best == LeastWhere(planPeriods[..k], (p: PlanPeriod) => p.id, (p: PlanPeriod) => Covers(p, d))
      {
        assert planPeriods[..k + 1][..k] == planPeriods[..k];
        if Covers(planPeriods[k], d) && (best.None? || planPeriods[k].id < planPeriods[best.value].id) {
          best := Some(k);
        }
      }
      assert planPeriods[..|planPeriods|] == planPeriods;
      i := if best.Some? then best.value else |planPeriods|;
    }

    /** `.first()` of the active enrolments of `user` in `period`: the same
        least-key scan. */
    method FindLeastEnrolment(user: Id, period: Id) returns (j: nat)
      ensures j <= |employeePlanPeriods|
      ensures LeastWhere(employeePlanPeriods, (e: EmployeePlanPeriod) => e.id,
                         (e: EmployeePlanPeriod) => Enrols(e, user, period))
              == if j < |employeePlanPeriods| then Some(j) else None
    {
      var best: Option<nat> := None;
      for k := 0 to |employeePlanPeriods|
        invariant best == LeastWhere(employeePlanPeriods[..k], (e: EmployeePlanPeriod) => e.id,
                                     (e: EmployeePlanPeriod) => Enrols(e, user, period))
      {
        assert employeePlanPeriods[..k + 1][..k] == employeePlanPeriods[..k];
        if Enrols(employeePlanPeriods[k], user, period)
           && (best.None? || employeePlanPeriods[k].id < employeePlanPeriods[best.value].id) {
          best := Some(k);
        }
      }
      assert employeePlanPeriods[..|employeePlanPeriods|] == employeePlanPeriods;
      j := if best.Some? then best.value else |employeePlanPeriods|;
    }

    /** The first active enrolment of `user` in `period`, in store order: the
        loop over the query that stops at its first row. */
    method FindEnrolment(user: Id, period: Id) returns (j: nat)
      ensures j <= |employeePlanPeriods|
      ensures FirstWhere(employeePlanPeriods, (e: EmployeePlanPeriod) => Enrols(e, user, period))
              == if j < |employeePlanPeriods| then Some(j) else None
    {
      j := 0;
      while j < |employeePlanPeriods| && !Enrols(employeePlanPeriods[j], user, period)
        invariant j <= |employeePlanPeriods|
        invariant forall k :: 0 <= k < j ==> !Enrols(employeePlanPeriods[k], user, period)
      {
        j := j + 1;
      }
      FirstWhereAt(employeePlanPeriods, (e: EmployeePlanPeriod) => Enrols(e, user, period), j);
    }

    /** The first active plan period with the given dates, by a scan. */
    method FindPeriod(start: Date, end: Date) returns (i: nat)
      ensures i <= |planPeriods|
      ensures FirstWhere(planPeriods, (p: PlanPeriod) => Spans(p, start, end))
              == if i < |planPeriods| then Some(i) else None
    {
      i := 0;
      while i < |planPeriods| && !Spans(planPeriods[i], start, end)
        invariant i <= |planPeriods|
        invariant forall k :: 0 <= k < i ==> !Spans(planPeriods[k], start, end)
      {
        i := i + 1;
      }
      FirstWhereAt(planPeriods, (p: PlanPeriod) => Spans(p, start, end), i);
    }

    /** `TimeOfDay.get(id=...)`: whether a time of day has the key. */
    method FindTimeOfDay(tod: Id) returns (found: bool)
      ensures found <==> HasTimeOfDay(Snapshot(), tod)
    {
      var t := 0;
      while t < |timesOfDay| && timesOfDay[t].id != tod
        invariant t <= |timesOfDay|
        invariant forall k :: 0 <= k < t ==> timesOfDay[k].id != tod
      {
        t := t + 1;
      }
      found := t < |timesOfDay|;
    }

    /** `Person.get(id=...)`: whether a person has the key. */
    method FindPerson(user: Id) returns (found: bool)
      ensures found <==> HasPerson(Snapshot(), user)
    {
      var t := 0;
      while t < |persons| && persons[t].id != user
        invariant t <= |persons|
        invariant forall k :: 0 <= k < t ==> persons[k].id != user
      {
        t := t + 1;
      }
      found := t < |persons|;
    }

    /** `Availability.get(...)` on a slot: how many active rows fill it, and
        where the last one found is. */
    method MatchSlot(k: Slot) returns (count: nat, hit: nat)
      ensures count == CountSlot(availabilities, k)
      ensures count > 0 ==> hit < |availabilities| && Fills(availabilities[hit], k)
    {
      count, hit := 0, 0;
      for i := 0 to |availabilities|
        invariant count == CountSlot(availabilities[..i], k)
        invariant count > 0 ==> hit < i && Fills(availabilities[hit], k)
      {
        assert availabilities[..i + 1][..i] == availabilities[..i];
        if Fills(availabilities[i], k) {
          count, hit := count + 1, i;
        }
      }
      assert availabilities[..|availabilities|] == availabilities;
    }

    /** `toggle_availability`: resolve the slot, then soft-delete the active
        row that fills it or add one. The tables and the answer are those of
        `Toggle`; the store invariant is kept. */
    method ToggleAvailability(user: Id, dateText: string, tod: Id, now: Stamp)
      returns (r: Result<(bool, bool), ToggleError>)
      modifies this
      ensures Snapshot() == Toggle(old(Snapshot()), user, dateText, tod, now).db
      ensures r == Toggle(old(Snapshot()), user, dateText, tod, now).value
      ensures old(Valid()) ==> Valid()
    {
      ghost var db := Snapshot();
      var res := ResolveSlot(user, dateText, tod);
      if res.Err? {
        return Err(res.error);
      }
      r := ToggleAt(res.value, now);
      if Consistent(db) {
        ToggleConsistent(db, user, dateText, tod, now);
      }
    }

    /** The write of `toggle_availability` once the slot is known: count the
        active rows filling it, then refuse, soft-delete the one hit or append
        a new row. */
    method ToggleAt(k: Slot, now: Stamp) returns (r: Result<(bool, bool), ToggleError>)
      modifies this
      ensures Snapshot() == ToggleSlot(old(Snapshot()), k, now).db
      ensures r == ToggleSlot(old(Snapshot()), k, now).value
    {
      var count, hit := MatchSlot(k);
      if count > 1 {
        return Err(Conflict);
      }
      if count == 1 {
        RetireOnly(availabilities, k, now, hit);
        availabilities := availabilities[hit := availabilities[hit].(prepDelete := Some(now))];
        r := Ok((false, true));
      } else {
        availabilities := availabilities + [NewAvailability(nextId, k, now)];
        nextId := nextId + 1;
        r := Ok((true, true));
      }
    }

    /** The lookups of `toggle_availability`: the date, the covering plan
        period with the least key, the person's enrolment in it with the least
        key and the time of day, with the error of the first lookup that fails. */
    method ResolveSlot(user: Id, dateText: string, tod: Id) returns (res: Result<Slot, ToggleError>)
      ensures res == Resolve(planPeriods, employeePlanPeriods, timesOfDay, user, dateText, tod)
    {
      var parsed := ParseIsoDate(dateText);
      if parsed.None? {
        return Err(InvalidDate);
      }
      var d := parsed.value;
      var i := FindCoveringPeriod(d);
      if i == |planPeriods| {
        return Err(NoPlanPeriod);
      }
      var j := FindLeastEnrolment(user, planPeriods[i].id);
      if j == |employeePlanPeriods| {
        return Err(NotEnrolled);
      }
      var hasTod := FindTimeOfDay(tod);
      if !hasTod {
        return Err(UnknownTimeOfDay);
      }
      res := Ok(Slot(employeePlanPeriods[j].id, tod, d));
    }

    /** `save_note`: find the plan period the label names, then change the
        notes of the person's active enrolment in it or create one. The
        tables and the answer are those of `SaveNote`; the store invariant is
        kept. */
    method SaveNote(user: Id, periodText: string, notes: Option<string>, now: Stamp)
      returns (r: Result<bool, NoteError>)
      modifies this
      ensures Snapshot() == DbHelpers.SaveNote(old(Snapshot()), user, periodText, notes, now).db
      ensures r == DbHelpers.SaveNote(old(Snapshot()), user, periodText, notes, now).value
      ensures old(Valid()) ==> Valid()
    {
      ghost var db := Snapshot();
      ghost var o := DbHelpers.SaveNote(db, user, periodText, notes, now);
      if Consistent(db) {
        SaveNoteConsistent(db, user, periodText, notes, now);
      }
      var parsed := ParseLabel(periodText);
      if parsed.None? {
        assert o == Outcome(db, Err(InvalidInput));
        return Err(InvalidInput);
      }
      var (start, end) := parsed.value;
      var i := FindPeriod(start, end);
      if i == |planPeriods| {
        assert o == Outcome(db, Ok(false));
        return Ok(false);
      }
      var known := FindPerson(user);
      if !known {
        assert o == Outcome(db, Err(UnknownPerson));
        return Err(UnknownPerson);
      }
      WriteNote(user, planPeriods[i].id, notes, now);
      r := Ok(true);
    }

    /** The write of `save_note`: rewrite the notes of the person's active
        enrolment in the period in place, or append a new enrolment. */
    method WriteNote(user: Id, period: Id, notes: Option<string>, now: Stamp)
      modifies this
      ensures Snapshot() == NoteWritten(old(Snapshot()), user, period, notes, now)
    {
      var j := FindEnrolment(user, period);
      if j == |employeePlanPeriods| {
        employeePlanPeriods := employeePlanPeriods + [EmployeePlanPeriod(nextId, notes, now, now, None, period, user)];
        nextId := nextId + 1;
      } else {
        employeePlanPeriods := employeePlanPeriods[j := employeePlanPeriods[j].(notes := notes, latestChange := now)];
      }
    }

    /** Whether `user` has an active enrolment, by a scan. */
    method HasActiveEnrolmentScan(user: Id) returns (found: bool)
      ensures found <==> HasActiveEnrolment(Snapshot(), user)
    {
      var e := 0;
      while e < |employeePlanPeriods| && !(employeePlanPeriods[e].Active() && employeePlanPeriods[e].person == user)
        invariant e <= |employeePlanPeriods|
        invariant forall k :: 0 <= k < e ==> !(employeePlanPeriods[k].Active() && employeePlanPeriods[k].person == user)
      {
        e := e + 1;
      }
      found := e < |employeePlanPeriods|;
    }

    /** The active plan periods, collected in store order. */
    method CollectActivePeriods() returns (ps: seq<PlanPeriod>)
      ensures ps == ActivePeriods(planPeriods)
    {
      ps := [];
      for i := 0 to |planPeriods|
        invariant ps == ActivePeriods(planPeriods[..i])
      {
        assert planPeriods[..i + 1][..i] == planPeriods[..i];
        if planPeriods[i].Active() {
          ps := ps + [planPeriods[i]];
        }
      }
      assert planPeriods[..|planPeriods|] == planPeriods;
    }

    /** One new enrolment of `user` per period of `ps`, each with the next
        free key; the answer counts them. */
    method AddEnrolments(ps: seq<PlanPeriod>, user: Id, now: Stamp) returns (createdCount: nat)
      modifies this
      ensures employeePlanPeriods == old(employeePlanPeriods) + NewEnrolments(ps, user, old(nextId), now)
      ensures nextId == old(nextId) + |ps| && createdCount == |ps|
      ensures unchanged(`persons, `projects, `teams, `planPeriods, `timesOfDay, `availabilities)
    {
      createdCount := 0;
      for k := 0 to |ps|
        invariant employeePlanPeriods == old(employeePlanPeriods) + NewEnrolments(ps[..k], user, old(nextId), now)
        invariant nextId == old(nextId) + k && createdCount == k
        invariant unchanged(`persons, `projects, `teams, `planPeriods, `timesOfDay, `availabilities)
      {
        assert ps[..k + 1][..k] == ps[..k];
        employeePlanPeriods := employeePlanPeriods + [EmployeePlanPeriod(nextId, Unset, now, now, None, ps[k].id, user)];
        nextId := nextId + 1;
        createdCount := createdCount + 1;
      }
      assert ps[..|ps|] == ps;
    }

    /** `ensure_employee_plan_periods`: for a known person without an active
        enrolment, create one enrolment per active plan period, counting them.
        The tables and the answer are those of `EnsureEnrolments`; the store
        invariant is kept. */
    method EnsureEmployeePlanPeriods(user: Id, now: Stamp) returns (r: bool)
      modifies this
      ensures Snapshot() == EnsureEnrolments(old(Snapshot()), user, now).db
      ensures r == EnsureEnrolments(old(Snapshot()), user, now).value
      ensures old(Valid()) ==> Valid()
    {
      ghost var db := Snapshot();
      var known := FindPerson(user);
      if !known {
        return false;
      }
      var enrolled := HasActiveEnrolmentScan(user);
      if enrolled {
        return true;
      }
      var ps := CollectActivePeriods();
      if |ps| == 0 {
        return false;
      }
      var createdCount := AddEnrolments(ps, user, now);
      r := createdCount > 0;
      if Consistent(db) {
        RepairConsistent(db, user, now);
      }
    }
  }
}
