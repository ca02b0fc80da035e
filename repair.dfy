/** `ensure_employee_plan_periods`: back-fill enrolments for a person who has
    none, one per active plan period. The function here is the specification
    of the loop in `Store.Database.EnsureEmployeePlanPeriods`. */
module Repair {
  import opened Wrappers
  import opened Seqs
  import opened Entities
  import opened DbHelpers

  /** The active plan periods, in store order. */
  function ActivePeriods(periods: seq<PlanPeriod>): seq<PlanPeriod> {
    Filter(periods, (p: PlanPeriod) => p.Active())
  }

  /** Every active period comes from the store. */
  lemma ActivePeriodFrom(periods: seq<PlanPeriod>, k: nat)
    requires k < |ActivePeriods(periods)|
    ensures ActivePeriods(periods)[k] in periods
  {
    var a := ActivePeriods(periods);
    assert a[k] in multiset(a);
  }

  predicate HasActiveEnrolment(db: Db, user: Id) {
    exists i :: 0 <= i < |db.employeePlanPeriods| && db.employeePlanPeriods[i].Active() && db.employeePlanPeriods[i].person == user
  }

  /** One enrolment of `user` per period of `ps`, in that order, with the keys
      `next`, `next + 1`, ..., with unset (empty) notes, not deleted. */
  function NewEnrolments(ps: seq<PlanPeriod>, user: Id, next: Id, now: Stamp): (r: seq<EmployeePlanPeriod>)
    ensures |r| == |ps|
    ensures forall i :: 0 <= i < |ps| ==> r[i] == EmployeePlanPeriod(next + i, Unset, now, now, None, ps[i].id, user)
    decreases |ps|
  {
    if ps == [] then []
    else NewEnrolments(ps[..|ps| - 1], user, next, now)
         + [EmployeePlanPeriod(next + |ps| - 1, Unset, now, now, None, ps[|ps| - 1].id, user)]
  }

  /** The repair: an unknown person gets `False`; a person with an active
      enrolment gets `True` and nothing changes; with no active plan period the
      answer is `False`; otherwise one enrolment is created per active plan
      period and the answer is whether any was created. */
  function EnsureEnrolments(db: Db, user: Id, now: Stamp): (o: Outcome<bool>)
    ensures !o.value ==> o.db == db
  {
    if !HasPerson(db, user) then Outcome(db, false)
    else if HasActiveEnrolment(db, user) then Outcome(db, true)
    else
      var ps := ActivePeriods(db.planPeriods);
      if |ps| == 0 then Outcome(db, false)
      else
        var created := NewEnrolments(ps, user, db.nextId, now);
        Outcome(db.(employeePlanPeriods := db.employeePlanPeriods + created, nextId := db.nextId + |created|), |created| > 0)
  }

  lemma {:induction false} CountEnrolmentsAppend(s: seq<EmployeePlanPeriod>, u: seq<EmployeePlanPeriod>, person: Id, period: Id)
    ensures CountEnrolments(s + u, person, period) == CountEnrolments(s, person, period) + CountEnrolments(u, person, period)
    decreases |u|
  {
    if u != [] {
      var init := u[..|u| - 1];
      CountEnrolmentsAppend(s, init, person, period);
      assert s + u == (s + init) + [u[|u| - 1]];
      CountEnrolmentsSnoc(s + init, u[|u| - 1], person, period);
      assert u == init + [u[|u| - 1]];
      CountEnrolmentsSnoc(init, u[|u| - 1], person, period);
    } else {
      assert s + u == s;
    }
  }

  /** Some period of `ps` has key `q`. */
  predicate HasId(ps: seq<PlanPeriod>, q: Id) {
    exists i :: 0 <= i < |ps| && ps[i].id == q
  }

  predicate DistinctIds(ps: seq<PlanPeriod>) {
    forall i, j :: 0 <= i < j < |ps| ==> ps[i].id != ps[j].id
  }

  /** A key occurs in `ps` when it occurs in all but the last or is the last's;
      with distinct keys the last one's key occurs nowhere before it. */
  lemma HasIdSnoc(ps: seq<PlanPeriod>, q: Id)
    requires ps != []
    ensures HasId(ps, q) <==> HasId(ps[..|ps| - 1], q) || ps[|ps| - 1].id == q
    ensures DistinctIds(ps) ==> DistinctIds(ps[..|ps| - 1])
    ensures DistinctIds(ps) && ps[|ps| - 1].id == q ==> !HasId(ps[..|ps| - 1], q)
  {
    var init := ps[..|ps| - 1];
    assert forall i :: 0 <= i < |init| ==> init[i] == ps[i];
    if HasId(ps, q) {
      var i :| 0 <= i < |ps| && ps[i].id == q;
      if i < |init| { assert init[i].id == q; }
    }
  }

  /** The new enrolments put `user` into each period of `ps` once when the
      periods' keys are distinct, and nobody else anywhere. */
  lemma {:induction false} NewEnrolmentsCount(ps: seq<PlanPeriod>, user: Id, next: Id, now: Stamp, person: Id, period: Id)
    requires DistinctIds(ps)
    ensures CountEnrolments(NewEnrolments(ps, user, next, now), person, period) ==
            if person == user && HasId(ps, period) then 1 else 0
    decreases |ps|
  {
    if ps != [] {
      var init := ps[..|ps| - 1];
      HasIdSnoc(ps, period);
      NewEnrolmentsCount(init, user, next, now, person, period);
      var e := EmployeePlanPeriod(next + |ps| - 1, Unset, now, now, None, ps[|ps| - 1].id, user);
      CountEnrolmentsSnoc(NewEnrolments(init, user, next, now), e, person, period);
    }
  }

  /** Keys stay distinct when some periods are dropped. */
  lemma {:induction false} ActivePeriodsDistinct(ps: seq<PlanPeriod>)
    requires DistinctIds(ps)
    ensures DistinctIds(ActivePeriods(ps))
    decreases |ps|
  {
    if ps != [] {
      var init := ps[..|ps| - 1];
      ActivePeriodsDistinct(init);
      var a := ActivePeriods(init);
      forall i | 0 <= i < |a| ensures a[i].id != ps[|ps| - 1].id {
        ActivePeriodFrom(init, i);
        var k :| 0 <= k < |init| && init[k] == a[i];
        assert ps[k] == a[i];
      }
    }
  }

  /** The early returns of the repair: an unknown person gets `False`, a
      person with an active enrolment gets `True`, and with no active plan
      period the answer is `False`; in each case nothing changes. */
  lemma RepairEarlyReturns(db: Db, user: Id, now: Stamp)
    ensures var o := EnsureEnrolments(db, user, now);
      && (!HasPerson(db, user) ==> o == Outcome(db, false))
      && (HasPerson(db, user) && HasActiveEnrolment(db, user) ==> o == Outcome(db, true))
      && (HasPerson(db, user) && !HasActiveEnrolment(db, user) && (forall i :: 0 <= i < |db.planPeriods| ==> !db.planPeriods[i].Active())
          ==> o == Outcome(db, false))
  {
    if forall i :: 0 <= i < |db.planPeriods| ==> !db.planPeriods[i].Active() {
      var ps := ActivePeriods(db.planPeriods);
      if |ps| > 0 {
        ActivePeriodFrom(db.planPeriods, 0);
      }
    }
  }

  /** The store after the back-fill: one new enrolment of `user` per active
      plan period, appended, with the next free keys. */
  function Backfilled(db: Db, user: Id, now: Stamp): (r: Db)
    ensures r.(employeePlanPeriods := db.employeePlanPeriods, nextId := db.nextId) == db
    ensures r.nextId == db.nextId + |ActivePeriods(db.planPeriods)|
  {
    var created := NewEnrolments(ActivePeriods(db.planPeriods), user, db.nextId, now);
    db.(employeePlanPeriods := db.employeePlanPeriods + created, nextId := db.nextId + |created|)
  }

  /** For a known person without an active enrolment, while some plan period
      is active, the repair is the back-fill and answers `True`. */
  lemma RepairCreates(db: Db, user: Id, now: Stamp)
    requires HasPerson(db, user) && !HasActiveEnrolment(db, user)
    requires exists i :: 0 <= i < |db.planPeriods| && db.planPeriods[i].Active()
    ensures EnsureEnrolments(db, user, now) == Outcome(Backfilled(db, user, now), true)
  {
    var i0 :| 0 <= i0 < |db.planPeriods| && db.planPeriods[i0].Active();
    assert db.planPeriods[i0] in ActivePeriods(db.planPeriods);
  }

  /** What the back-fill does to the enrolments: the old ones stay in front;
      the new ones are active, belong to `user`, carry unset (empty) notes and have fresh
      keys; afterwards `user` is enrolled in each active plan period exactly
      once and in no other, and nobody else's enrolments change. */
  lemma BackfillEffect(db: Db, user: Id, now: Stamp)
    requires DistinctIds(db.planPeriods)
    requires !HasActiveEnrolment(db, user)
    ensures var s, t := db.employeePlanPeriods, Backfilled(db, user, now).employeePlanPeriods;
      && |t| == |s| + |ActivePeriods(db.planPeriods)|
      && t[..|s|] == s
      && (forall j :: |s| <= j < |t| ==>
            t[j].Active() && t[j].person == user && t[j].notes == Unset && db.nextId <= t[j].id < Backfilled(db, user, now).nextId)
      && (forall i :: 0 <= i < |db.planPeriods| ==>
            CountEnrolments(t, user, db.planPeriods[i].id) == if db.planPeriods[i].Active() then 1 else 0)
      && (forall q: Id :: CountEnrolments(t, user, q) <= 1)
      && (forall p: Id, q: Id :: p != user ==> CountEnrolments(t, p, q) == CountEnrolments(s, p, q))
  {
    BackfillShape(db, user, now);
    BackfillCounts(db, user, now);
  }

  /** The back-fill keeps the old enrolments in front and appends fresh, active
      ones of `user` without notes. */
  lemma BackfillShape(db: Db, user: Id, now: Stamp)
    ensures var s, t := db.employeePlanPeriods, Backfilled(db, user, now).employeePlanPeriods;
      && |t| == |s| + |ActivePeriods(db.planPeriods)|
      && t[..|s|] == s
      && (forall j :: |s| <= j < |t| ==>
            t[j].Active() && t[j].person == user && t[j].notes == Unset && db.nextId <= t[j].id < Backfilled(db, user, now).nextId)
  {
    var ps := ActivePeriods(db.planPeriods);
    var s, u := db.employeePlanPeriods, NewEnrolments(ps, user, db.nextId, now);
    var b := Backfilled(db, user, now);
    var t: seq<EmployeePlanPeriod> := s + u;
    assert b.employeePlanPeriods == t && b.nextId == db.nextId + |ps|;
    assert t[..|s|] == s;
    forall j | |s| <= j < |t|
      ensures t[j].Active() && t[j].person == user && t[j].notes == Unset
      ensures db.nextId <= t[j].id < db.nextId + |ps|
    {
      assert t[j] == u[j - |s|];
    }
  }

  /** After the back-fill `user` is enrolled once in each active period and
      in no other, and nobody else's counts change. */
  lemma BackfillCounts(db: Db, user: Id, now: Stamp)
    requires DistinctIds(db.planPeriods)
    requires !HasActiveEnrolment(db, user)
    ensures var s, t := db.employeePlanPeriods, Backfilled(db, user, now).employeePlanPeriods;
      && (forall i :: 0 <= i < |db.planPeriods| ==>
            CountEnrolments(t, user, db.planPeriods[i].id) == if db.planPeriods[i].Active() then 1 else 0)
      && (forall q: Id :: CountEnrolments(t, user, q) <= 1)
      && (forall p: Id, q: Id :: p != user ==> CountEnrolments(t, p, q) == CountEnrolments(s, p, q))
  {
    var ps := ActivePeriods(db.planPeriods);
    var s := db.employeePlanPeriods;
    forall q: Id ensures CountEnrolments(s, user, q) == 0 {
      CountEnrolmentsZero(s, user, q);
    }
    ActivePeriodsDistinct(db.planPeriods);
    AppendedCounts(s, ps, user, db.nextId, now);
    forall i | 0 <= i < |db.planPeriods|
      ensures HasId(ps, db.planPeriods[i].id) == db.planPeriods[i].Active()
    {
      ActiveHasId(db.planPeriods, i);
    }
  }

  /** After the back-fill every active enrolment of `user` is a new one, with unset notes. */
  lemma BackfillUserRows(db: Db, user: Id, now: Stamp)
    requires !HasActiveEnrolment(db, user)
    ensures var t := Backfilled(db, user, now).employeePlanPeriods;
      forall j :: 0 <= j < |t| && t[j].person == user && t[j].Active() ==> t[j].notes == Unset
  {
    BackfillShape(db, user, now);
    var s, t := db.employeePlanPeriods, Backfilled(db, user, now).employeePlanPeriods;
    forall j | 0 <= j < |s| ensures t[j] == s[j] {
      assert t[..|s|][j] == t[j];
    }
  }

  /** With distinct keys, a period's key is among the active periods' keys
      exactly when the period is active. */
  lemma ActiveHasId(periods: seq<PlanPeriod>, i: nat)
    requires DistinctIds(periods) && i < |periods|
    ensures HasId(ActivePeriods(periods), periods[i].id) == periods[i].Active()
  {
    var ps := ActivePeriods(periods);
    if periods[i].Active() {
      assert periods[i] in multiset(ps);
      var k :| 0 <= k < |ps| && ps[k] == periods[i];
    } else {
      forall k | 0 <= k < |ps| ensures ps[k].id != periods[i].id {
        ActivePeriodFrom(periods, k);
        var m :| 0 <= m < |periods| && periods[m] == ps[k];
        assert m != i;
      }
    }
  }

  /** Appending the new enrolments adds one for `user` in each period of `ps` and nothing else. */
  lemma AppendedCounts(s: seq<EmployeePlanPeriod>, ps: seq<PlanPeriod>, user: Id, next: Id, now: Stamp)
    requires DistinctIds(ps)
    ensures forall p: Id, q: Id ::
      (CountEnrolments(s + NewEnrolments(ps, user, next, now), p, q) ==
       CountEnrolments(s, p, q) + (if p == user && HasId(ps, q) then 1 else 0))
  {
    forall p: Id, q: Id
      ensures CountEnrolments(s + NewEnrolments(ps, user, next, now), p, q) ==
        CountEnrolments(s, p, q) + (if p == user && HasId(ps, q) then 1 else 0)
    {
      CountEnrolmentsAppend(s, NewEnrolments(ps, user, next, now), p, q);
      NewEnrolmentsCount(ps, user, next, now, p, q);
    }
  }

  /** The repair is idempotent: a second run finds what the first left and
      changes nothing, with the same answer. */
  lemma RepairIdempotent(db: Db, user: Id, now1: Stamp, now2: Stamp)
    requires PlanPeriodsOk(db)
    ensures var o1 := EnsureEnrolments(db, user, now1);
            EnsureEnrolments(o1.db, user, now2) == o1
  {
    var o1 := EnsureEnrolments(db, user, now1);
    RepairEarlyReturns(db, user, now1);
    if HasPerson(db, user) && !HasActiveEnrolment(db, user) && exists i :: 0 <= i < |db.planPeriods| && db.planPeriods[i].Active() {
      RepairCreates(db, user, now1);
      BackfillEffect(db, user, now1);
      var i0 :| 0 <= i0 < |db.planPeriods| && db.planPeriods[i0].Active();
      var ps := ActivePeriods(db.planPeriods);
      assert db.planPeriods[i0] in ps;
      var s := db.employeePlanPeriods;
      assert o1.db.employeePlanPeriods[|s|].Active() && o1.db.employeePlanPeriods[|s|].person == user;
      assert HasActiveEnrolment(o1.db, user);
      assert HasPerson(o1.db, user) by {
        assert o1.db.persons == db.persons;
      }
    }
  }

  /** The repair keeps the store invariant. */
  lemma RepairConsistent(db: Db, user: Id, now: Stamp)
    requires Consistent(db)
    ensures Consistent(EnsureEnrolments(db, user, now).db)
  {
    RepairEarlyReturns(db, user, now);
    if HasPerson(db, user) && !HasActiveEnrolment(db, user) && exists i :: 0 <= i < |db.planPeriods| && db.planPeriods[i].Active() {
      RepairCreates(db, user, now);
      BackfillConsistent(db, user, now);
    }
  }

  lemma BackfillConsistent(db: Db, user: Id, now: Stamp)
    requires Consistent(db) && HasPerson(db, user) && !HasActiveEnrolment(db, user)
    ensures Consistent(Backfilled(db, user, now))
  {
    var db' := Backfilled(db, user, now);
    BackfillOneActive(db, user, now);
    BackfillEnrolmentsOk(db, user, now);
    BackfillAvailabilitiesOk(db, user, now);
    OtherTablesOk(db, db');
  }

  lemma BackfillOneActive(db: Db, user: Id, now: Stamp)
    requires forall i, j :: 0 <= i < j < |db.planPeriods| ==> db.planPeriods[i].id != db.planPeriods[j].id
    requires !HasActiveEnrolment(db, user) && OneActiveEnrolment(db.employeePlanPeriods)
    ensures OneActiveEnrolment(Backfilled(db, user, now).employeePlanPeriods)
  {
    var t := Backfilled(db, user, now).employeePlanPeriods;
    BackfillEffect(db, user, now);
    forall p: Id, q: Id ensures CountEnrolments(t, p, q) <= 1 {
      if p != user {
        assert CountEnrolments(db.employeePlanPeriods, p, q) <= 1;
      }
    }
  }

  lemma BackfillEnrolmentsOk(db: Db, user: Id, now: Stamp)
    requires EnrolmentsOk(db) && HasPerson(db, user)
    ensures EnrolmentsOk(Backfilled(db, user, now))
  {
    var ps := ActivePeriods(db.planPeriods);
    var s, u := db.employeePlanPeriods, NewEnrolments(ps, user, db.nextId, now);
    var db' := Backfilled(db, user, now);
    var t := db'.employeePlanPeriods;
    assert t == s + u;
    assert forall x :: HasPerson(db', x) == HasPerson(db, x) by { assert db'.persons == db.persons; }
    assert forall x :: HasPlanPeriod(db', x) == HasPlanPeriod(db, x) by { assert db'.planPeriods == db.planPeriods; }
    forall j | 0 <= j < |t|
      ensures t[j].id < db'.nextId && HasPlanPeriod(db', t[j].planPeriod) && HasPerson(db', t[j].person)
      ensures j < |s| ==> t[j].id < db.nextId
      ensures |s| <= j ==> t[j].id == db.nextId + (j - |s|)
    {
      if j < |s| {
        assert t[j] == s[j];
      } else {
        assert t[j] == u[j - |s|];
        ActivePeriodFrom(db.planPeriods, j - |s|);
      }
    }
    forall a, b | 0 <= a < b < |t| ensures t[a].id != t[b].id {
      if b < |s| {
        assert t[a] == s[a] && t[b] == s[b];
      }
    }
  }

  lemma BackfillAvailabilitiesOk(db: Db, user: Id, now: Stamp)
    requires AvailabilitiesOk(db)
    ensures AvailabilitiesOk(Backfilled(db, user, now))
  {
    var db' := Backfilled(db, user, now);
    var s := db.employeePlanPeriods;
    assert db'.availabilities == db.availabilities && db'.timesOfDay == db.timesOfDay;
    assert forall x :: HasTimeOfDay(db', x) == HasTimeOfDay(db, x);
    forall x | HasEnrolment(db, x) ensures HasEnrolment(db', x) {
      var i :| 0 <= i < |s| && s[i].id == x;
      assert db'.employeePlanPeriods[i] == s[i];
    }
  }
}
