/** The read side of the database helpers: the plan periods with their
    messages, the time-of-day options with normalised start times, the
    selected times of a person grouped by ISO date, the notes of a person
    keyed by period label, and the login check. Each is a method that builds
    its result in a loop, proved against a function that states the result. */
module Queries {
  import opened Wrappers
  import opened Seqs
  import opened Dates
  import opened Formats
  import opened Entities
  import opened DbHelpers
  import opened Repair
  import opened Store

  predicate PeriodDatesOk(periods: seq<PlanPeriod>) {
    forall i :: 0 <= i < |periods| ==> Wellformed(periods[i].start) && Wellformed(periods[i].end)
  }

  // ---------------------------------------------------------------------------
  // get_plan_periods
  // ---------------------------------------------------------------------------

  datatype PeriodRow = PeriodRow(id: Id, start: Date, end: Date, deadline: Date, message: string)

  predicate StartLe(p: PlanPeriod, q: PlanPeriod) { Le(p.start, q.start) }

  lemma StartLeTotalPreorder()
    ensures TotalPreorder(StartLe)
  {
  }

  /** `period.notes or "Planungsperiode " + label`: empty or missing notes fall back to the label. */
  function Message(p: PlanPeriod): (m: string)
    requires Wellformed(p.start) && Wellformed(p.end)
    ensures p.notes.Some? && p.notes.value != "" ==> m == p.notes.value
    ensures p.notes.None? || p.notes.value == "" ==> m == "Planungsperiode " + Label(p.start, p.end)
  {
    if p.notes.Some? && p.notes.value != "" then p.notes.value else "Planungsperiode " + Label(p.start, p.end)
  }

  function RowOf(p: PlanPeriod): PeriodRow
    requires Wellformed(p.start) && Wellformed(p.end)
  {
    PeriodRow(p.id, p.start, p.end, p.deadline, Message(p))
  }

  /** `PlanPeriod.select(active).order_by(start)`: the active periods, stably sorted by start. */
  function PeriodsByStart(periods: seq<PlanPeriod>): (r: seq<PlanPeriod>)
    ensures multiset(r) == multiset(ActivePeriods(periods))
    ensures SortedBy(r, StartLe)
  {
    StartLeTotalPreorder();
    SortPerm(ActivePeriods(periods), StartLe);
    SortSorted(ActivePeriods(periods), StartLe);
    SortBy(ActivePeriods(periods), StartLe)
  }

  /** The sorted periods are exactly the active ones. */
  lemma PeriodsByStartMembers(periods: seq<PlanPeriod>)
    ensures var r := PeriodsByStart(periods);
      && (forall i :: 0 <= i < |r| ==> r[i].Active() && r[i] in periods)
      && (forall k :: 0 <= k < |periods| && periods[k].Active() ==> periods[k] in r)
  {
    var r, a := PeriodsByStart(periods), ActivePeriods(periods);
    forall i | 0 <= i < |r| ensures r[i].Active() && r[i] in periods {
      assert r[i] in multiset(r);
      assert r[i] in a;
      var k :| 0 <= k < |a| && a[k] == r[i];
      ActivePeriodFrom(periods, k);
    }
    forall k | 0 <= k < |periods| && periods[k].Active() ensures periods[k] in r {
      assert periods[k] in a;
      assert periods[k] in multiset(a);
    }
  }

  /** Sorting keeps the dates of every period well formed. */
  lemma PeriodsByStartDates(periods: seq<PlanPeriod>)
    requires PeriodDatesOk(periods)
    ensures PeriodDatesOk(PeriodsByStart(periods))
  {
    PeriodsByStartMembers(periods);
  }

  /** The rows `get_plan_periods` returns, one per period in start order. */
  function PlanPeriodRows(periods: seq<PlanPeriod>): (rows: seq<PeriodRow>)
    requires PeriodDatesOk(periods)
    ensures |rows| == |PeriodsByStart(periods)|
  {
    var ps := PeriodsByStart(periods);
    PeriodsByStartDates(periods);
    seq(|ps|, i requires 0 <= i < |ps| => RowOf(ps[i]))
  }

  /** One row per active plan period, ordered by start; the message of each is
      the period's notes or, when those are empty, the default text. */
  lemma PlanPeriodRowsSpec(periods: seq<PlanPeriod>)
    requires PeriodDatesOk(periods)
    ensures var rows := PlanPeriodRows(periods);
      && |rows| == |ActivePeriods(periods)|
      && (forall i :: 0 <= i < |rows| ==>
            exists k :: 0 <= k < |periods| && periods[k].Active() && rows[i] == RowOf(periods[k]))
      && (forall k :: 0 <= k < |periods| && periods[k].Active() ==>
            exists i :: 0 <= i < |rows| && rows[i] == RowOf(periods[k]))
      && (forall i, j :: 0 <= i < j < |rows| ==> Le(rows[i].start, rows[j].start))
  {
    var ps := PeriodsByStart(periods);
    assert |ps| == |ActivePeriods(periods)| by {
      assert |multiset(ps)| == |multiset(ActivePeriods(periods))|;
    }
    RowsFromPeriods(periods);
    PeriodsHaveRows(periods);
    RowsByStart(periods);
  }

  lemma RowsFromPeriods(periods: seq<PlanPeriod>)
    requires PeriodDatesOk(periods)
    ensures var rows := PlanPeriodRows(periods);
      forall i :: 0 <= i < |rows| ==>
        exists k :: 0 <= k < |periods| && periods[k].Active() && rows[i] == RowOf(periods[k])
  {
    var ps := PeriodsByStart(periods);
    PeriodsByStartMembers(periods);
    forall i | 0 <= i < |PlanPeriodRows(periods)|
      ensures exists k :: 0 <= k < |periods| && periods[k].Active() && PlanPeriodRows(periods)[i] == RowOf(periods[k])
    {
      assert ps[i] in periods;
      var k :| 0 <= k < |periods| && periods[k] == ps[i];
      assert PlanPeriodRows(periods)[i] == RowOf(periods[k]);
    }
  }

  lemma PeriodsHaveRows(periods: seq<PlanPeriod>)
    requires PeriodDatesOk(periods)
    ensures var rows := PlanPeriodRows(periods);
      forall k :: 0 <= k < |periods| && periods[k].Active() ==>
        exists i :: 0 <= i < |rows| && rows[i] == RowOf(periods[k])
  {
    var ps, rows := PeriodsByStart(periods), PlanPeriodRows(periods);
    PeriodsByStartMembers(periods);
    forall k | 0 <= k < |periods| && periods[k].Active()
      ensures exists i :: 0 <= i < |rows| && rows[i] == RowOf(periods[k])
    {
      assert periods[k] in ps;
      var i :| 0 <= i < |ps| && ps[i] == periods[k];
      assert rows[i] == RowOf(periods[k]);
    }
  }

  lemma RowsByStart(periods: seq<PlanPeriod>)
    requires PeriodDatesOk(periods)
    ensures var rows := PlanPeriodRows(periods);
      forall i, j :: 0 <= i < j < |rows| ==> Le(rows[i].start, rows[j].start)
  {
    var ps, rows := PeriodsByStart(periods), PlanPeriodRows(periods);
    forall i, j | 0 <= i < j < |rows| ensures Le(rows[i].start, rows[j].start) {
      assert StartLe(ps[i], ps[j]);
      assert rows[i].start == ps[i].start && rows[j].start == ps[j].start;
    }
  }

  /** The rows up to `i + 1` are those up to `i` and the row of the `i`-th sorted period. */
  lemma PlanPeriodRowsStep(periods: seq<PlanPeriod>, i: nat)
    requires PeriodDatesOk(periods) && i < |PeriodsByStart(periods)|
    ensures Wellformed(PeriodsByStart(periods)[i].start) && Wellformed(PeriodsByStart(periods)[i].end)
    ensures PlanPeriodRows(periods)[..i + 1] == PlanPeriodRows(periods)[..i] + [RowOf(PeriodsByStart(periods)[i])]
  {
    PeriodsByStartDates(periods);
    PrefixSnoc(PlanPeriodRows(periods), i);
  }

  /** `get_plan_periods`: the loop appends one row per period of the ordered query. */
  method GetPlanPeriods(db: Db) returns (rows: seq<PeriodRow>)
    requires PeriodDatesOk(db.planPeriods)
    ensures rows == PlanPeriodRows(db.planPeriods)
  {
    var periods := PeriodsByStart(db.planPeriods);
    rows := [];
    for i := 0 to |periods|
      invariant rows == PlanPeriodRows(db.planPeriods)[..i]
    {
      PlanPeriodRowsStep(db.planPeriods, i);
      rows := rows + [RowOf(periods[i])];
    }
    assert PlanPeriodRows(db.planPeriods)[..|periods|] == PlanPeriodRows(db.planPeriods);
  }

  // ---------------------------------------------------------------------------
  // get_time_of_day_options
  // ---------------------------------------------------------------------------

  datatype TodOption = TodOption(id: Id, name: string, start: Time, delta: int,
                                 createdAt: Stamp, latestChange: Stamp, color: Option<string>)

  /** An active slot, and the user's own when a user is given. */
  predicate Offered(t: TimeOfDay, user: Option<Id>) { t.Active() && (user.Some? ==> t.person == user.value) }

  /** The option shown for a slot: its start normalised, its colour as stored
      (the attribute always exists, so the `gray-500` fallback is never used). */
  function OptionOf(t: TimeOfDay): (o: TodOption)
    ensures o.id == t.id && o.color == t.color
    ensures t.start.TimeValue? ==> o.start == t.start.time
    ensures t.start.TextValue? ==> ValidTime(o.start)
  {
    TodOption(t.id, t.name, NormaliseStart(t.start), t.delta, t.createdAt, t.latestChange, t.color)
  }

  /** The options `get_time_of_day_options` returns: one per offered slot, in store order. */
  function OfferedOptions(times: seq<TimeOfDay>, user: Option<Id>): (opts: seq<TodOption>)
    ensures |opts| <= |times|
    decreases |times|
  {
    if times == [] then []
    else
      var init := OfferedOptions(times[..|times| - 1], user);
      if Offered(times[|times| - 1], user) then init + [OptionOf(times[|times| - 1])] else init
  }

  /** Every option comes from an offered slot. */
  lemma {:induction false} OptionFromSlot(times: seq<TimeOfDay>, user: Option<Id>, j: nat)
    requires j < |OfferedOptions(times, user)|
    ensures exists k :: 0 <= k < |times| && Offered(times[k], user) && OfferedOptions(times, user)[j] == OptionOf(times[k])
    decreases |times|
  {
    var init := times[..|times| - 1];
    var prev := OfferedOptions(init, user);
    if j < |prev| {
      OptionFromSlot(init, user, j);
      var k :| 0 <= k < |init| && Offered(init[k], user) && prev[j] == OptionOf(init[k]);
      assert times[k] == init[k];
    } else {
      assert OfferedOptions(times, user)[j] == OptionOf(times[|times| - 1]);
    }
  }

  /** Every offered slot has an option. */
  lemma {:induction false} SlotHasOption(times: seq<TimeOfDay>, user: Option<Id>, k: nat)
    requires k < |times| && Offered(times[k], user)
    ensures exists j :: 0 <= j < |OfferedOptions(times, user)| && OfferedOptions(times, user)[j] == OptionOf(times[k])
    decreases |times|
  {
    var init := times[..|times| - 1];
    var prev, opts := OfferedOptions(init, user), OfferedOptions(times, user);
    if k < |init| {
      assert init[k] == times[k];
      SlotHasOption(init, user, k);
      var j :| 0 <= j < |prev| && prev[j] == OptionOf(init[k]);
      assert opts[j] == prev[j];
    } else {
      assert opts[|opts| - 1] == OptionOf(times[k]);
    }
  }

  /** Option `o` is that of some offered slot. */
  predicate FromOfferedSlot(times: seq<TimeOfDay>, user: Option<Id>, o: TodOption) {
    exists k :: 0 <= k < |times| && Offered(times[k], user) && o == OptionOf(times[k])
  }

  /** Exactly the offered slots have an option. */
  lemma OfferedOptionsSpec(times: seq<TimeOfDay>, user: Option<Id>)
    ensures forall j :: 0 <= j < |OfferedOptions(times, user)| ==> FromOfferedSlot(times, user, OfferedOptions(times, user)[j])
    ensures forall k :: 0 <= k < |times| && Offered(times[k], user) ==> OptionOf(times[k]) in OfferedOptions(times, user)
  {
    forall j | 0 <= j < |OfferedOptions(times, user)|
      ensures FromOfferedSlot(times, user, OfferedOptions(times, user)[j])
    {
      OptionFromSlot(times, user, j);
    }
    forall k | 0 <= k < |times| && Offered(times[k], user)
      ensures OptionOf(times[k]) in OfferedOptions(times, user)
    {
      SlotHasOption(times, user, k);
    }
  }

  /** `get_time_of_day_options`: the loop over the slot query appends one
      option per offered slot. */
  method GetTimeOfDayOptions(db: Db, user: Option<Id>) returns (opts: seq<TodOption>)
    ensures opts == OfferedOptions(db.timesOfDay, user)
  {
    var times := db.timesOfDay;
    opts := [];
    for i := 0 to |times|
      invariant opts == OfferedOptions(times[..i], user)
    {
      assert times[..i + 1][..i] == times[..i];
      if Offered(times[i], user) {
        opts := opts + [OptionOf(times[i])];
      }
    }
    assert times[..|times|] == times;
  }

  // ---------------------------------------------------------------------------
  // get_selected_times
  // ---------------------------------------------------------------------------

  /** An active enrolment of `user`, in `period` when one is given. */
  predicate Selected(e: EmployeePlanPeriod, user: Id, period: Option<Id>) {
    e.person == user && (period.Some? ==> e.planPeriod == period.value) && e.Active()
  }

  /** The enrolment query of `get_selected_times`, in store order. */
  function SelectedEnrolments(s: seq<EmployeePlanPeriod>, user: Id, period: Option<Id>): seq<EmployeePlanPeriod> {
    Filter(s, (e: EmployeePlanPeriod) => Selected(e, user, period))
  }

  predicate DatesValid(avs: seq<Availability>) { forall i :: 0 <= i < |avs| ==> Valid(avs[i].date) }

  /** An active availability of the enrolment with key `epp`. */
  predicate ShownFor(a: Availability, epp: Id) { a.Active() && a.employeePlanPeriod == epp }

  /** The (ISO date, time-of-day) pairs of one enrolment's active availabilities, in store order. */
  function SlotPairs(avs: seq<Availability>, epp: Id): seq<(string, Id)>
    requires DatesValid(avs)
    decreases |avs|
  {
    if avs == [] then []
    else
      var a := avs[|avs| - 1];
      SlotPairs(avs[..|avs| - 1], epp) + (if ShownFor(a, epp) then [(IsoDate(a.date), a.timeOfDay)] else [])
  }

  /** The pair lists of the given enrolments, one per enrolment. */
  function PairLists(avs: seq<Availability>, es: seq<EmployeePlanPeriod>): (ls: seq<seq<(string, Id)>>)
    requires DatesValid(avs)
    ensures |ls| == |es| && forall j :: 0 <= j < |es| ==> ls[j] == SlotPairs(avs, es[j].id)
  {
    seq(|es|, j requires 0 <= j < |es| => SlotPairs(avs, es[j].id))
  }

  /** The pairs of all the given enrolments, enrolment by enrolment. */
  function SelectedPairs(avs: seq<Availability>, es: seq<EmployeePlanPeriod>): seq<(string, Id)>
    requires DatesValid(avs)
  {
    Concat(PairLists(avs, es))
  }

  /** A dictionary from date strings to lists of time-of-day keys, with its keys in insertion order. */
  datatype Grouping = Grouping(keys: seq<string>, times: map<string, seq<Id>>)

  /** `if k not in result: result[k] = []` then `if t not in result[k]: result[k].append(t)`. */
  function AddPair(g: Grouping, k: string, t: Id): Grouping {
    if k !in g.times then Grouping(g.keys + [k], g.times[k := [t]])
    else if t in g.times[k] then g
    else Grouping(g.keys, g.times[k := g.times[k] + [t]])
  }

  function Group(pairs: seq<(string, Id)>): Grouping
    decreases |pairs|
  {
    if pairs == [] then Grouping([], map[])
    else AddPair(Group(pairs[..|pairs| - 1]), pairs[|pairs| - 1].0, pairs[|pairs| - 1].1)
  }

  function KeysOf(pairs: seq<(string, Id)>): seq<string>
    decreases |pairs|
  {
    if pairs == [] then [] else KeysOf(pairs[..|pairs| - 1]) + [pairs[|pairs| - 1].0]
  }

  function TimesFor(pairs: seq<(string, Id)>, k: string): seq<Id>
    decreases |pairs|
  {
    if pairs == [] then []
    else TimesFor(pairs[..|pairs| - 1], k) + (if pairs[|pairs| - 1].0 == k then [pairs[|pairs| - 1].1] else [])
  }

  lemma {:induction false} KeysOfMember(pairs: seq<(string, Id)>, k: string)
    ensures k in KeysOf(pairs) <==> exists i :: 0 <= i < |pairs| && pairs[i].0 == k
    decreases |pairs|
  {
    if pairs != [] {
      var init := pairs[..|pairs| - 1];
      KeysOfMember(init, k);
      assert forall i :: 0 <= i < |init| ==> init[i] == pairs[i];
    }
  }

  lemma {:induction false} TimesForMember(pairs: seq<(string, Id)>, k: string, t: Id)
    ensures t in TimesFor(pairs, k) <==> (k, t) in pairs
    decreases |pairs|
  {
    if pairs != [] {
      var init := pairs[..|pairs| - 1];
      TimesForMember(init, k, t);
      assert pairs == init + [pairs[|pairs| - 1]];
    }
  }

  lemma TimesForAbsent(pairs: seq<(string, Id)>, k: string)
    requires k !in KeysOf(pairs)
    ensures TimesFor(pairs, k) == []
  {
    KeysOfMember(pairs, k);
    if TimesFor(pairs, k) != [] {
      var t := TimesFor(pairs, k)[0];
      TimesForMember(pairs, k, t);
    }
  }

  /** The grouping keeps the dates in first-seen order and, under each date,
      the time-of-day keys in first-seen order, each once. */
  lemma GroupSpec(pairs: seq<(string, Id)>)
    ensures Group(pairs).keys == Dedup(KeysOf(pairs))
    ensures forall k :: k in Group(pairs).times <==> k in KeysOf(pairs)
    ensures forall k :: k in Group(pairs).times ==> Group(pairs).times[k] == Dedup(TimesFor(pairs, k))
  {
    GroupKeys(pairs);
    forall k | k in Group(pairs).times ensures Group(pairs).times[k] == Dedup(TimesFor(pairs, k)) {
      GroupTimes(pairs, k);
    }
  }

  lemma {:induction false} GroupKeys(pairs: seq<(string, Id)>)
    ensures Group(pairs).keys == Dedup(KeysOf(pairs))
    ensures forall k :: k in Group(pairs).times <==> k in KeysOf(pairs)
    decreases |pairs|
  {
    if pairs != [] {
      var init := pairs[..|pairs| - 1];
      GroupKeys(init);
      DedupSnoc(KeysOf(init), pairs[|pairs| - 1].0);
      DedupSpec(KeysOf(init));
    }
  }

  lemma {:induction false} GroupTimes(pairs: seq<(string, Id)>, k: string)
    requires k in Group(pairs).times
    ensures Group(pairs).times[k] == Dedup(TimesFor(pairs, k))
    decreases |pairs|
  {
    var init := pairs[..|pairs| - 1];
    var (k0, t0) := pairs[|pairs| - 1];
    var g := Group(init);
    GroupKeys(init);
    assert Group(pairs) == AddPair(g, k0, t0);
    assert TimesFor(pairs, k) == TimesFor(init, k) + (if k0 == k then [t0] else []);
    if k0 != k {
      assert k in g.times;
      GroupTimes(init, k);
      assert TimesFor(init, k) + [] == TimesFor(init, k);
      assert Group(pairs).times[k] == g.times[k];
    } else if k0 in g.times {
      GroupTimes(init, k);
      DedupSnoc(TimesFor(init, k0), t0);
      DedupSpec(TimesFor(init, k0));
    } else {
      TimesForAbsent(init, k0);
      assert TimesFor(pairs, k0) == [] + [t0];
      DedupSnoc([], t0);
    }
  }

  /** What `get_selected_times` returns. */
  function SelectedTimes(db: Db, user: Id, period: Option<Id>): Grouping
    requires DatesValid(db.availabilities)
  {
    if !HasPerson(db, user) then Grouping([], map[])
    else Group(SelectedPairs(db.availabilities, SelectedEnrolments(db.employeePlanPeriods, user, period)))
  }

  /** Time of day `t` is selected on date string `k`: some active availability
      of one of the person's selected enrolments has that time of day and a
      date written `k`. */
  predicate Shows(db: Db, user: Id, period: Option<Id>, k: string, t: Id)
    requires DatesValid(db.availabilities)
  {
    exists j, i :: 0 <= j < |db.employeePlanPeriods| && 0 <= i < |db.availabilities|
      && Selected(db.employeePlanPeriods[j], user, period)
      && ShownFor(db.availabilities[i], db.employeePlanPeriods[j].id)
      && IsoDate(db.availabilities[i].date) == k && db.availabilities[i].timeOfDay == t
  }

  lemma {:induction false} SlotPairsMember(avs: seq<Availability>, epp: Id, k: string, t: Id)
    requires DatesValid(avs)
    ensures (k, t) in SlotPairs(avs, epp) <==>
      exists i :: 0 <= i < |avs| && ShownFor(avs[i], epp) && IsoDate(avs[i].date) == k && avs[i].timeOfDay == t
    decreases |avs|
  {
    if avs != [] {
      var init := avs[..|avs| - 1];
      SlotPairsMember(init, epp, k, t);
      assert forall i :: 0 <= i < |init| ==> init[i] == avs[i];
    }
  }

  lemma SelectedPairsMember(avs: seq<Availability>, es: seq<EmployeePlanPeriod>, k: string, t: Id)
    requires DatesValid(avs)
    ensures (k, t) in SelectedPairs(avs, es) <==> exists j :: 0 <= j < |es| && (k, t) in SlotPairs(avs, es[j].id)
  {
    var ls := PairLists(avs, es);
    ConcatMember(ls, (k, t));
    if exists j :: 0 <= j < |es| && (k, t) in SlotPairs(avs, es[j].id) {
      var j :| 0 <= j < |es| && (k, t) in SlotPairs(avs, es[j].id);
      assert (k, t) in ls[j];
    }
  }

  /** The pairs of the selected enrolments are exactly the selected times. */
  lemma PairsShow(db: Db, user: Id, period: Option<Id>, k: string, t: Id)
    requires DatesValid(db.availabilities)
    ensures (k, t) in SelectedPairs(db.availabilities, SelectedEnrolments(db.employeePlanPeriods, user, period))
            <==> Shows(db, user, period, k, t)
  {
    if (k, t) in SelectedPairs(db.availabilities, SelectedEnrolments(db.employeePlanPeriods, user, period)) {
      PairsShowSound(db, user, period, k, t);
    }
    if Shows(db, user, period, k, t) {
      PairsShowComplete(db, user, period, k, t);
    }
  }

  lemma PairsShowSound(db: Db, user: Id, period: Option<Id>, k: string, t: Id)
    requires DatesValid(db.availabilities)
    requires (k, t) in SelectedPairs(db.availabilities, SelectedEnrolments(db.employeePlanPeriods, user, period))
    ensures Shows(db, user, period, k, t)
  {
    var avs, s := db.availabilities, db.employeePlanPeriods;
    var es := SelectedEnrolments(s, user, period);
    SelectedPairsMember(avs, es, k, t);
    var j :| 0 <= j < |es| && (k, t) in SlotPairs(avs, es[j].id);
    SlotPairsMember(avs, es[j].id, k, t);
    var i :| 0 <= i < |avs| && ShownFor(avs[i], es[j].id) && IsoDate(avs[i].date) == k && avs[i].timeOfDay == t;
    var j' := SelectedInStore(s, user, period, j);
    ShowsAt(db, user, period, k, t, j', i);
  }

  /** A selected enrolment is a row of the store that satisfies the query. */
  lemma SelectedInStore(s: seq<EmployeePlanPeriod>, user: Id, period: Option<Id>, j: nat) returns (j': nat)
    requires j < |SelectedEnrolments(s, user, period)|
    ensures j' < |s| && s[j'] == SelectedEnrolments(s, user, period)[j] && Selected(s[j'], user, period)
  {
    var es := SelectedEnrolments(s, user, period);
    assert es[j] in multiset(es);
    assert es[j] in s;
    j' :| 0 <= j' < |s| && s[j'] == es[j];
  }

  lemma ShowsAt(db: Db, user: Id, period: Option<Id>, k: string, t: Id, j: nat, i: nat)
    requires DatesValid(db.availabilities)
    requires j < |db.employeePlanPeriods| && i < |db.availabilities|
    requires Selected(db.employeePlanPeriods[j], user, period)
    requires ShownFor(db.availabilities[i], db.employeePlanPeriods[j].id)
    requires IsoDate(db.availabilities[i].date) == k && db.availabilities[i].timeOfDay == t
    ensures Shows(db, user, period, k, t)
  {
  }

  lemma PairsShowComplete(db: Db, user: Id, period: Option<Id>, k: string, t: Id)
    requires DatesValid(db.availabilities)
    requires Shows(db, user, period, k, t)
    ensures (k, t) in SelectedPairs(db.availabilities, SelectedEnrolments(db.employeePlanPeriods, user, period))
  {
    var avs, s := db.availabilities, db.employeePlanPeriods;
    var es := SelectedEnrolments(s, user, period);
    var j, i :| 0 <= j < |s| && 0 <= i < |avs| && Selected(s[j], user, period)
      && ShownFor(avs[i], s[j].id) && IsoDate(avs[i].date) == k && avs[i].timeOfDay == t;
    assert s[j] in es;
    var j' :| 0 <= j' < |es| && es[j'] == s[j];
    SlotPairsMember(avs, es[j'].id, k, t);
    SelectedPairsMember(avs, es, k, t);
  }

  /** `get_selected_times`: an unknown person gets the empty dictionary;
      otherwise the keys are the ISO dates of the person's selected
      availabilities, each once, and under each date the time-of-day keys
      selected on it, each once. */
  lemma SelectedTimesSpec(db: Db, user: Id, period: Option<Id>)
    requires DatesValid(db.availabilities)
    ensures var g := SelectedTimes(db, user, period);
      && (!HasPerson(db, user) ==> g.keys == [] && g.times == map[])
      && NoDup(g.keys) && (forall k :: k in g.keys <==> k in g.times)
      && (forall k :: k in g.times ==> NoDup(g.times[k]))
      && (forall k, t :: k in g.times && t in g.times[k] <==> HasPerson(db, user) && Shows(db, user, period, k, t))
  {
    var g := SelectedTimes(db, user, period);
    if HasPerson(db, user) {
      var pairs := SelectedPairs(db.availabilities, SelectedEnrolments(db.employeePlanPeriods, user, period));
      GroupSpec(pairs);
      DedupSpec(KeysOf(pairs));
      forall k | k in g.times ensures NoDup(g.times[k]) {
        DedupSpec(TimesFor(pairs, k));
      }
      forall k, t ensures k in g.times && t in g.times[k] <==> Shows(db, user, period, k, t) {
        PairsShow(db, user, period, k, t);
        TimesForMember(pairs, k, t);
        KeysOfMember(pairs, k);
        if k in g.times {
          DedupSpec(TimesFor(pairs, k));
        }
      }
    }
  }

  /** `Person.get(id=...)`: whether a person has the key, by a scan. */
  method KnownPerson(db: Db, user: Id) returns (known: bool)
    ensures known <==> HasPerson(db, user)
  {
    known := false;
    for p := 0 to |db.persons|
      invariant known <==> exists q :: 0 <= q < p && db.persons[q].id == user
    {
      if db.persons[p].id == user {
        known := true;
      }
    }
  }

  /** The inner loop of `get_selected_times`: the active availabilities of one enrolment. */
  method AddSlots(g0: Grouping, ghost before: seq<(string, Id)>, avs: seq<Availability>, epp: Id) returns (g: Grouping)
    requires DatesValid(avs) && g0 == Group(before)
    ensures g == Group(before + SlotPairs(avs, epp))
  {
    g := g0;
    assert before + SlotPairs(avs[..0], epp) == before;
    for i := 0 to |avs|
      invariant g == Group(before + SlotPairs(avs[..i], epp))
    {
      assert avs[..i + 1][..i] == avs[..i];
      var a := avs[i];
      ghost var p := before + SlotPairs(avs[..i], epp);
      if ShownFor(a, epp) {
        var pair := (IsoDate(a.date), a.timeOfDay);
        assert before + SlotPairs(avs[..i + 1], epp) == p + [pair];
        assert (p + [pair])[..|p|] == p;
        g := AddPair(g, pair.0, pair.1);
      } else {
        assert SlotPairs(avs[..i + 1], epp) == SlotPairs(avs[..i], epp);
      }
    }
    assert avs[..|avs|] == avs;
  }

  /** `get_selected_times`: for each selected enrolment, for each of its active
      availabilities, record the time-of-day key under the ISO date. */
  method GetSelectedTimes(db: Db, user: Id, period: Option<Id>) returns (g: Grouping)
    requires DatesValid(db.availabilities)
    ensures g == SelectedTimes(db, user, period)
  {
    var known := KnownPerson(db, user);
    if !known {
      return Grouping([], map[]);
    }
    var avs := db.availabilities;
    var es := SelectedEnrolments(db.employeePlanPeriods, user, period);
    ghost var ls := PairLists(avs, es);
    g := Grouping([], map[]);
    for j := 0 to |es|
      invariant g == Group(Concat(ls[..j]))
    {
      ConcatSnoc(ls, j);
      g := AddSlots(g, Concat(ls[..j]), avs, es[j].id);
    }
    assert ls[..|es|] == ls;
  }

  // ---------------------------------------------------------------------------
  // get_user_notes
  // ---------------------------------------------------------------------------

  /** An active enrolment of `user` that carries notes. */
  predicate Noted(e: EmployeePlanPeriod, user: Id) { e.person == user && e.notes.Some? && e.Active() }

  /** The label of an enrolment's plan period (the first with its key). */
  function PeriodLabel(periods: seq<PlanPeriod>, e: EmployeePlanPeriod): Option<string>
    requires PeriodDatesOk(periods)
  {
    match FirstWhere(periods, (p: PlanPeriod) => p.id == e.planPeriod)
    case Some(i) => Some(Label(periods[i].start, periods[i].end))
    case None => None
  }

  /** An enrolment together with the label of its plan period. */
  datatype FiledNote = FiledNote(tag: Option<string>, enrolment: EmployeePlanPeriod)

  /** The enrolments, each paired with its period's label. */
  function Filing(periods: seq<PlanPeriod>, es: seq<EmployeePlanPeriod>): (fs: seq<FiledNote>)
    requires PeriodDatesOk(periods)
    ensures |fs| == |es| && forall j :: 0 <= j < |es| ==> fs[j] == FiledNote(PeriodLabel(periods, es[j]), es[j])
  {
    seq(|es|, j requires 0 <= j < |es| => FiledNote(PeriodLabel(periods, es[j]), es[j]))
  }

  /** `result[label] = epp.notes` over the filed enrolments in order: a later one wins. */
  function NotesFrom(fs: seq<FiledNote>, user: Id): map<string, string>
    decreases |fs|
  {
    if fs == [] then map[]
    else
      var m := NotesFrom(fs[..|fs| - 1], user);
      var f := fs[|fs| - 1];
      if Noted(f.enrolment, user) && f.tag.Some? then m[f.tag.value := f.enrolment.notes.value] else m
  }

  /** The notes `get_user_notes` collects for `user`. */
  function NotesOf(periods: seq<PlanPeriod>, es: seq<EmployeePlanPeriod>, user: Id): map<string, string>
    requires PeriodDatesOk(periods)
  {
    NotesFrom(Filing(periods, es), user)
  }

  /** What `get_user_notes` returns: nothing without a user. */
  function UserNotes(db: Db, user: Option<Id>): map<string, string>
    requires PeriodDatesOk(db.planPeriods)
  {
    if user.None? then map[] else NotesOf(db.planPeriods, db.employeePlanPeriods, user.value)
  }

  /** `es[j]` is a noted enrolment filed under label `k`. */
  predicate NotedUnder(periods: seq<PlanPeriod>, es: seq<EmployeePlanPeriod>, user: Id, j: int, k: string)
    requires PeriodDatesOk(periods)
  {
    0 <= j < |es| && Noted(es[j], user) && PeriodLabel(periods, es[j]) == Some(k)
  }

  /** `es[j]` is the last noted enrolment filed under `k`. */
  predicate LastNotedAt(periods: seq<PlanPeriod>, es: seq<EmployeePlanPeriod>, user: Id, j: int, k: string)
    requires PeriodDatesOk(periods)
  {
    NotedUnder(periods, es, user, j, k) && forall j' :: j < j' < |es| ==> !NotedUnder(periods, es, user, j', k)
  }

  /** A label is a key iff some noted enrolment is filed under it, and its
      notes are those of the last such enrolment. */
  lemma NotesOfSpec(periods: seq<PlanPeriod>, es: seq<EmployeePlanPeriod>, user: Id, k: string)
    requires PeriodDatesOk(periods)
    ensures k in NotesOf(periods, es, user) <==> exists j :: NotedUnder(periods, es, user, j, k)
    ensures k in NotesOf(periods, es, user) ==>
      exists j :: LastNotedAt(periods, es, user, j, k) && NotesOf(periods, es, user)[k] == es[j].notes.value
  {
    var fs := Filing(periods, es);
    assert forall j :: NotedIn(fs, user, j, k) <==> NotedUnder(periods, es, user, j, k);
    NotesKeys(fs, user, k);
    if k in NotesFrom(fs, user) {
      NotesLastWins(fs, user, k);
      var j :| LastNotedIn(fs, user, j, k) && NotesFrom(fs, user)[k] == fs[j].enrolment.notes.value;
      assert LastNotedAt(periods, es, user, j, k);
    }
  }

  /** `fs[j]` is a noted enrolment filed under `k`. */
  predicate NotedIn(fs: seq<FiledNote>, user: Id, j: int, k: string) {
    0 <= j < |fs| && Noted(fs[j].enrolment, user) && fs[j].tag == Some(k)
  }

  /** `fs[j]` is the last noted enrolment filed under `k`. */
  predicate LastNotedIn(fs: seq<FiledNote>, user: Id, j: int, k: string) {
    NotedIn(fs, user, j, k) && forall j' :: j < j' < |fs| ==> !NotedIn(fs, user, j', k)
  }

  lemma {:induction false} NotesKeys(fs: seq<FiledNote>, user: Id, k: string)
    ensures k in NotesFrom(fs, user) <==> exists j :: NotedIn(fs, user, j, k)
    decreases |fs|
  {
    if fs != [] {
      var init, last := fs[..|fs| - 1], |fs| - 1;
      NotesKeys(init, user, k);
      PrefixNotedIn(fs, init, user, k);
      if NotedIn(fs, user, last, k) {
        NotesFromLast(fs, user, k);
      } else {
        NotesFromOther(fs, user, k);
        if exists j :: NotedIn(fs, user, j, k) {
          var j :| NotedIn(fs, user, j, k);
          assert NotedIn(init, user, j, k);
        }
      }
    }
  }

  /** Before the last entry, being filed under `k` is the same in the prefix. */
  lemma PrefixNotedIn(fs: seq<FiledNote>, init: seq<FiledNote>, user: Id, k: string)
    requires fs != [] && init == fs[..|fs| - 1]
    ensures forall j :: 0 <= j < |init| ==> (NotedIn(init, user, j, k) <==> NotedIn(fs, user, j, k))
    ensures forall j :: NotedIn(init, user, j, k) ==> 0 <= j < |init|
  {
  }

  /** When the last entry is filed under `k`, its notes are the entry for `k`. */
  lemma NotesFromLast(fs: seq<FiledNote>, user: Id, k: string)
    requires NotedIn(fs, user, |fs| - 1, k)
    ensures k in NotesFrom(fs, user) && NotesFrom(fs, user)[k] == fs[|fs| - 1].enrolment.notes.value
  {
  }

  /** When the last entry is not filed under `k`, the entry for `k` is the prefix's. */
  lemma NotesFromOther(fs: seq<FiledNote>, user: Id, k: string)
    requires fs != [] && !NotedIn(fs, user, |fs| - 1, k)
    ensures var m0, m := NotesFrom(fs[..|fs| - 1], user), NotesFrom(fs, user);
      (k in m <==> k in m0) && (k in m ==> m[k] == m0[k])
  {
  }

  lemma {:induction false} NotesLastWins(fs: seq<FiledNote>, user: Id, k: string)
    requires k in NotesFrom(fs, user)
    ensures exists j :: LastNotedIn(fs, user, j, k) && NotesFrom(fs, user)[k] == fs[j].enrolment.notes.value
    decreases |fs|
  {
    var init, last := fs[..|fs| - 1], |fs| - 1;
    if NotedIn(fs, user, last, k) {
      NotesFromLast(fs, user, k);
      assert LastNotedIn(fs, user, last, k);
    } else {
      NotesFromOther(fs, user, k);
      NotesLastWins(init, user, k);
      var j :| LastNotedIn(init, user, j, k) && NotesFrom(init, user)[k] == init[j].enrolment.notes.value;
      LastNotedExtend(fs, user, j, k);
    }
  }

  /** The last entry under `k` in the prefix stays last when the final one is not under `k`. */
  lemma LastNotedExtend(fs: seq<FiledNote>, user: Id, j: int, k: string)
    requires fs != [] && !NotedIn(fs, user, |fs| - 1, k) && LastNotedIn(fs[..|fs| - 1], user, j, k)
    ensures LastNotedIn(fs, user, j, k) && fs[j] == fs[..|fs| - 1][j]
  {
    PrefixNotedIn(fs, fs[..|fs| - 1], user, k);
    forall j' | j < j' < |fs| ensures !NotedIn(fs, user, j', k) {
      if j' < |fs| - 1 {
        assert !NotedIn(fs[..|fs| - 1], user, j', k);
      }
    }
  }

  /** One more entry: the map grows by that entry when it is noted and filed. */
  lemma NotesFromStep(fs: seq<FiledNote>, j: nat, user: Id)
    requires j < |fs|
    ensures NotesFrom(fs[..j + 1], user) ==
      if Noted(fs[j].enrolment, user) && fs[j].tag.Some?
      then NotesFrom(fs[..j], user)[fs[j].tag.value := fs[j].enrolment.notes.value]
      else NotesFrom(fs[..j], user)
  {
    assert fs[..j + 1][..j] == fs[..j];
  }

  /** `PlanPeriod.get(id=...)`: the first plan period with the key, by a scan. */
  method PeriodIndex(periods: seq<PlanPeriod>, id: Id) returns (i: nat)
    ensures i <= |periods|
    ensures FirstWhere(periods, (p: PlanPeriod) => p.id == id) == if i < |periods| then Some(i) else None
  {
    i := 0;
    while i < |periods| && periods[i].id != id
      invariant i <= |periods|
      invariant forall q :: 0 <= q < i ==> periods[q].id != id
    {
      i := i + 1;
    }
    FirstWhereAt(periods, (p: PlanPeriod) => p.id == id, i);
  }

  /** `get_user_notes`: the loop over the person's noted enrolments files each
      one's notes under its period's label. */
  method GetUserNotes(db: Db, user: Option<Id>) returns (m: map<string, string>)
    requires PeriodDatesOk(db.planPeriods)
    ensures m == UserNotes(db, user)
  {
    m := map[];
    if user.None? {
      return;
    }
    var es := db.employeePlanPeriods;
    ghost var fs := Filing(db.planPeriods, es);
    for j := 0 to |es|
      invariant m == NotesFrom(fs[..j], user.value)
    {
      NotesFromStep(fs, j, user.value);
      var e := es[j];
      if Noted(e, user.value) {
        var i := PeriodIndex(db.planPeriods, e.planPeriod);
        if i < |db.planPeriods| {
          var text := Label(db.planPeriods[i].start, db.planPeriods[i].end);
          assert fs[j].tag == Some(text);
          m := m[text := e.notes.value];
        } else {
          assert fs[j].tag.None?;
        }
      }
    }
    assert fs[..|es|] == fs;
  }

  /** Period `i`'s label names no other plan period. */
  predicate UniqueLabel(periods: seq<PlanPeriod>, i: nat)
    requires PeriodDatesOk(periods) && i < |periods|
  {
    forall i' :: 0 <= i' < |periods| && i' != i ==>
      Label(periods[i'].start, periods[i'].end) != Label(periods[i].start, periods[i].end)
  }

  /** With a unique label and distinct keys, an enrolment is filed under period
      `i`'s label exactly when it belongs to period `i`. */
  lemma FiledUnder(periods: seq<PlanPeriod>, i: nat, e: EmployeePlanPeriod)
    requires PeriodDatesOk(periods) && i < |periods| && UniqueLabel(periods, i)
    requires forall a, b :: 0 <= a < b < |periods| ==> periods[a].id != periods[b].id
    ensures PeriodLabel(periods, e) == Some(Label(periods[i].start, periods[i].end)) <==> e.planPeriod == periods[i].id
  {
    var f := FirstWhere(periods, (p: PlanPeriod) => p.id == e.planPeriod);
    if e.planPeriod == periods[i].id {
      assert f.Some?;
    }
  }

  /** The notes read back from an enrolment table in which the person has
      exactly one active enrolment in period `i`, carrying `notes`. */
  lemma NotesOfSaved(periods: seq<PlanPeriod>, t: seq<EmployeePlanPeriod>, user: Id, i: nat, notes: Option<string>)
    requires PeriodDatesOk(periods) && i < |periods| && UniqueLabel(periods, i)
    requires forall a, b :: 0 <= a < b < |periods| ==> periods[a].id != periods[b].id
    requires CountEnrolments(t, user, periods[i].id) == 1
    requires forall j :: 0 <= j < |t| && Enrols(t[j], user, periods[i].id) ==> t[j].notes == notes
    ensures var text, m := Label(periods[i].start, periods[i].end), NotesOf(periods, t, user);
      && (notes.Some? ==> text in m && m[text] == notes.value)
      && (notes.None? ==> text !in m)
  {
    var text, period := Label(periods[i].start, periods[i].end), periods[i].id;
    NotesOfSpec(periods, t, user, text);
    forall j | 0 <= j < |t| ensures NotedUnder(periods, t, user, j, text) <==> Enrols(t[j], user, period) && t[j].notes.Some? {
      FiledUnder(periods, i, t[j]);
    }
    if notes.Some? {
      CountEnrolmentsZero(t, user, period);
      var j :| 0 <= j < |t| && Enrols(t[j], user, period);
      assert NotedUnder(periods, t, user, j, text);
    }
  }

  /** Saving notes under the label of an active plan period and then reading
      the person's notes back gives those notes under that label, or no entry
      when the notes were cleared. */
  lemma SaveNoteReadBack(db: Db, user: Id, i: nat, notes: Option<string>, now: Stamp)
    requires Consistent(db) && i < |db.planPeriods| && db.planPeriods[i].Active() && HasPerson(db, user)
    requires 1969 <= db.planPeriods[i].start.year <= 2068 && 1969 <= db.planPeriods[i].end.year <= 2068
    requires PeriodDatesOk(db.planPeriods) && UniqueLabel(db.planPeriods, i)
    ensures var text := Label(db.planPeriods[i].start, db.planPeriods[i].end);
            var o := SaveNote(db, user, text, notes, now);
            var m := UserNotes(o.db, Some(user));
      && o.value == Ok(true)
      && (notes.Some? ==> text in m && m[text] == notes.value)
      && (notes.None? ==> text !in m)
  {
    var periods := db.planPeriods;
    var text := Label(periods[i].start, periods[i].end);
    SaveNoteOnLabel(db, user, i, notes, now);
    SaveNoteEffect(db, user, text, notes, now);
    NotesOfSaved(periods, SaveNote(db, user, text, notes, now).db.employeePlanPeriods, user, i, notes);
  }

  /** When every active enrolment of the person carries the unset notes and
      one of them is in period `i`, the person's notes hold `""` under `i`'s
      label, whichever period's enrolment the label is filed from. */
  lemma UnsetNotesListed(periods: seq<PlanPeriod>, t: seq<EmployeePlanPeriod>, user: Id, i: nat)
    requires PeriodDatesOk(periods) && DistinctIds(periods) && i < |periods|
    requires CountEnrolments(t, user, periods[i].id) > 0
    requires forall j :: 0 <= j < |t| && t[j].person == user && t[j].Active() ==> t[j].notes == Unset
    ensures var text, m := Label(periods[i].start, periods[i].end), NotesOf(periods, t, user);
      text in m && m[text] == ""
  {
    var text := Label(periods[i].start, periods[i].end);
    CountEnrolmentsZero(t, user, periods[i].id);
    var j :| 0 <= j < |t| && Enrols(t[j], user, periods[i].id);
    assert FirstWhere(periods, (p: PlanPeriod) => p.id == t[j].planPeriod) == Some(i);
    assert NotedUnder(periods, t, user, j, text);
    NotesOfSpec(periods, t, user, text);
  }

  /** After the repair has enrolled a person who had no active enrolment, the
      person's notes list the label of every active plan period, with the
      empty text the new enrolments carry. */
  lemma RepairListsPeriods(db: Db, user: Id, now: Stamp, i: nat)
    requires DistinctIds(db.planPeriods) && HasPerson(db, user) && !HasActiveEnrolment(db, user)
    requires i < |db.planPeriods| && db.planPeriods[i].Active()
    requires PeriodDatesOk(db.planPeriods)
    ensures var o := EnsureEnrolments(db, user, now);
            var text := Label(db.planPeriods[i].start, db.planPeriods[i].end);
      && o.value && o.db.planPeriods == db.planPeriods
      && var m := UserNotes(o.db, Some(user));
         text in m && m[text] == ""
  {
    RepairCreates(db, user, now);
    var t := Backfilled(db, user, now).employeePlanPeriods;
    BackfillCounts(db, user, now);
    BackfillUserRows(db, user, now);
    assert CountEnrolments(t, user, db.planPeriods[i].id) == 1;
    UnsetNotesListed(db.planPeriods, t, user, i);
  }

  // ---------------------------------------------------------------------------
  // validate_login
  // ---------------------------------------------------------------------------

  datatype LoginSummary = LoginSummary(id: Id, username: string, firstName: string, lastName: Option<string>,
                                       email: string, isAdmin: bool)

  predicate Matches(p: Person, username: string, password: string) {
    p.username == username && p.password == password && p.Active()
  }

  /** The summary of a person: `is_admin` says whether some project has the
      person as its administrator. */
  function Summary(db: Db, p: Person): LoginSummary {
    LoginSummary(p.id, p.username, p.fName, p.lName, p.email, IsAdmin(db, p.id))
  }

  /** `i` is the first position holding a matching person. */
  predicate FirstMatch(persons: seq<Person>, i: int, username: string, password: string) {
    && 0 <= i < |persons| && Matches(persons[i], username, password)
    && forall j :: 0 <= j < i ==> !Matches(persons[j], username, password)
  }

  /** `validate_login`: the first active person with that username and
      password, summarised; `None` when nobody matches. */
  method ValidateLogin(db: Db, username: string, password: string) returns (r: Option<LoginSummary>)
    ensures r.None? <==> forall i :: 0 <= i < |db.persons| ==> !Matches(db.persons[i], username, password)
    ensures r.Some? ==> exists i :: FirstMatch(db.persons, i, username, password) && r.value == Summary(db, db.persons[i])
  {
    var i := 0;
    while i < |db.persons| && !Matches(db.persons[i], username, password)
      invariant i <= |db.persons|
      invariant forall j :: 0 <= j < i ==> !Matches(db.persons[j], username, password)
    {
      i := i + 1;
    }
    if i == |db.persons| {
      return None;
    }
    var p := db.persons[i];
    var k := 0;
    while k < |db.projects| && db.projects[k].admin != p.id
      invariant k <= |db.projects|
      invariant forall j :: 0 <= j < k ==> db.projects[j].admin != p.id
    {
      k := k + 1;
    }
    r := Some(LoginSummary(p.id, p.username, p.fName, p.lName, p.email, k < |db.projects|));
    assert FirstMatch(db.persons, i, username, password);
  }
}
