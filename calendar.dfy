/** The calendar page's aggregation of the plan periods: every day of every
    period filed under the period's label in the bucket of the day's month,
    the label-keyed deadline, message and first-month maps, the labels sorted
    by start, one colour per label, and the lookup behind the notes dialog. */
module Calendar {
  import opened Wrappers
  import opened Seqs
  import opened Dates
  import opened Formats
  import opened Entities
  import opened DbHelpers
  import opened Store
  import opened Queries

  /** The three background colours handed out to plan periods in turn. */
  const Palette: seq<string> := ["bg-blue-800/40", "bg-emerald-800/40", "bg-violet-800/40"]

  predicate RowsOk(rows: seq<PeriodRow>) {
    forall i :: 0 <= i < |rows| ==> Wellformed(rows[i].start) && Wellformed(rows[i].end)
  }

  /** The period's label, as the aggregation formats it. */
  function LabelOf(r: PeriodRow): string
    requires Wellformed(r.start) && Wellformed(r.end)
  {
    Label(r.start, r.end)
  }

  /** A period together with its label: the pair the loop body works on. */
  datatype Labelled = Labelled(tag: string, row: PeriodRow)

  predicate DatesOk(ps: seq<Labelled>) {
    forall i :: 0 <= i < |ps| ==> Wellformed(ps[i].row.start) && Wellformed(ps[i].row.end)
  }

  /** Every entry carries its period's own label. */
  predicate LabelsOk(ps: seq<Labelled>)
    requires DatesOk(ps)
  {
    forall i :: 0 <= i < |ps| ==> ps[i].tag == LabelOf(ps[i].row)
  }

  /** The periods, each paired with its label. */
  function WithLabels(rows: seq<PeriodRow>): (ps: seq<Labelled>)
    requires RowsOk(rows)
    ensures |ps| == |rows| && DatesOk(ps) && LabelsOk(ps)
    ensures forall i :: 0 <= i < |rows| ==> ps[i].row == rows[i]
  {
    seq(|rows|, i requires 0 <= i < |rows| => Labelled(LabelOf(rows[i]), rows[i]))
  }

  // ---------------------------------------------------------------------------
  // grouped_dates
  // ---------------------------------------------------------------------------

  /** One month's entry: the year it was created with, its labels in insertion
      order, and the days filed under each label. */
  datatype Bucket = Bucket(year: int, labels: seq<string>, days: map<string, seq<Date>>)

  /** The month-keyed dictionary, with its keys in insertion order. */
  datatype Grouped = Grouped(months: seq<int>, buckets: map<int, Bucket>)

  /** The days filed under label `k` in the bucket of month `m`; none when there is no such entry. */
  function DaysAt(g: Grouped, m: int, k: string): seq<Date> {
    if m in g.buckets && k in g.buckets[m].days then g.buckets[m].days[k] else []
  }

  /** One pass of the inner loop: create the month's bucket with the day's
      year if it is missing, create the label's list if it is missing, append
      the day. */
  function AddDay(g: Grouped, k: string, d: Date): (r: Grouped)
    ensures forall m, k' :: DaysAt(r, m, k') == DaysAt(g, m, k') + (if m == d.month && k' == k then [d] else [])
  {
    var isNew := d.month !in g.buckets;
    var b := if isNew then Bucket(d.year, [], map[]) else g.buckets[d.month];
    var b' := if k in b.days then b.(days := b.days[k := b.days[k] + [d]])
              else b.(labels := b.labels + [k], days := b.days[k := [d]]);
    Grouped(if isNew then g.months + [d.month] else g.months, g.buckets[d.month := b'])
  }

  /** The loop over one period's days. */
  function GroupDays(g: Grouped, k: string, ds: seq<Date>): Grouped
    decreases |ds|
  {
    if ds == [] then g else AddDay(GroupDays(g, k, ds[..|ds| - 1]), k, ds[|ds| - 1])
  }

  /** `grouped_dates` after the loop over the periods. */
  function Grouping(ps: seq<Labelled>): Grouped
    requires DatesOk(ps)
    decreases |ps|
  {
    if ps == [] then Grouped([], map[])
    else
      var r := ps[|ps| - 1];
      GroupDays(Grouping(ps[..|ps| - 1]), r.tag, Days(r.row.start, r.row.end))
  }

  /** The days of `ds` that fall in month `m` (of any year), in their order. */
  function InMonth(ds: seq<Date>, m: int): seq<Date>
    decreases |ds|
  {
    if ds == [] then [] else InMonth(ds[..|ds| - 1], m) + (if ds[|ds| - 1].month == m then [ds[|ds| - 1]] else [])
  }

  /** The days of every period bearing label `k`, period after period. */
  function LabelDays(ps: seq<Labelled>, k: string): seq<Date>
    requires DatesOk(ps)
    decreases |ps|
  {
    if ps == [] then []
    else
      var r := ps[|ps| - 1];
      LabelDays(ps[..|ps| - 1], k) + (if r.tag == k then Days(r.row.start, r.row.end) else [])
  }

  /** The days of every period, period after period: the order the loops visit them in. */
  function AllDays(ps: seq<Labelled>): seq<Date>
    requires DatesOk(ps)
    decreases |ps|
  {
    if ps == [] then []
    else
      var r := ps[|ps| - 1];
      AllDays(ps[..|ps| - 1]) + Days(r.row.start, r.row.end)
  }

  /** The shape every dictionary built by the loops has: the month keys are
      distinct and are exactly the buckets; within a bucket the label keys are
      distinct and are exactly the lists, and every list holds at least one
      day, all of that month. */
  ghost predicate WellGrouped(g: Grouped) {
    && NoDup(g.months)
    && (forall m :: m in g.buckets <==> m in g.months)
    && (forall m :: m in g.buckets ==> BucketOk(g.buckets[m], m))
  }

  ghost predicate BucketOk(b: Bucket, m: int) {
    && NoDup(b.labels)
    && (forall k :: k in b.days <==> k in b.labels)
    && (forall k :: k in b.days ==> b.days[k] != [] && forall i :: 0 <= i < |b.days[k]| ==> b.days[k][i].month == m)
  }

  lemma InMonthAppend(a: seq<Date>, b: seq<Date>, m: int)
    ensures InMonth(a + b, m) == InMonth(a, m) + InMonth(b, m)
    decreases |b|
  {
    if b == [] {
      assert a + b == a;
    } else {
      var b0 := b[..|b| - 1];
      InMonthAppend(a, b0, m);
      assert (a + b)[..|a + b| - 1] == a + b0;
    }
  }

  /** The days in month `m` are exactly those of `ds` whose month is `m`. */
  lemma {:induction false} InMonthMembers(ds: seq<Date>, m: int)
    ensures forall i :: 0 <= i < |InMonth(ds, m)| ==> InMonth(ds, m)[i].month == m
    ensures forall d :: d in InMonth(ds, m) <==> d in ds && d.month == m
    decreases |ds|
  {
    if ds != [] {
      InMonthMembers(ds[..|ds| - 1], m);
      assert ds == ds[..|ds| - 1] + [ds[|ds| - 1]];
    }
  }

  /** Taking the days of one month keeps ascending days ascending. */
  lemma {:induction false} InMonthAscends(ds: seq<Date>, m: int)
    requires forall i, j :: 0 <= i < j < |ds| ==> Lt(ds[i], ds[j])
    ensures forall i, j :: 0 <= i < j < |InMonth(ds, m)| ==> Lt(InMonth(ds, m)[i], InMonth(ds, m)[j])
    decreases |ds|
  {
    if ds != [] {
      var init, d := ds[..|ds| - 1], ds[|ds| - 1];
      assert forall i :: 0 <= i < |init| ==> init[i] == ds[i];
      InMonthAscends(init, m);
      InMonthMembers(init, m);
      forall x | x in InMonth(init, m) ensures Lt(x, d) {
        var i :| 0 <= i < |init| && init[i] == x;
        assert ds[i] == x;
      }
    }
  }

  /** The days in month `m` are exactly those of `ds` whose month is `m`, in the order of `ds`. */
  lemma InMonthSpec(ds: seq<Date>, m: int)
    ensures forall i :: 0 <= i < |InMonth(ds, m)| ==> InMonth(ds, m)[i].month == m
    ensures forall d :: d in InMonth(ds, m) <==> d in ds && d.month == m
    ensures (forall i, j :: 0 <= i < j < |ds| ==> Lt(ds[i], ds[j])) ==>
      forall i, j :: 0 <= i < j < |InMonth(ds, m)| ==> Lt(InMonth(ds, m)[i], InMonth(ds, m)[j])
  {
    InMonthMembers(ds, m);
    if forall i, j :: 0 <= i < j < |ds| ==> Lt(ds[i], ds[j]) {
      InMonthAscends(ds, m);
    }
  }

  lemma {:induction false} GroupDaysAt(g: Grouped, k: string, ds: seq<Date>, m: int, k': string)
    ensures DaysAt(GroupDays(g, k, ds), m, k') == DaysAt(g, m, k') + (if k' == k then InMonth(ds, m) else [])
    decreases |ds|
  {
    if ds != [] {
      GroupDaysAt(g, k, ds[..|ds| - 1], m, k');
    }
  }

  /** The days filed under label `k` in month `m` are the days of the periods
      labelled `k`, period after period, that fall in month `m`. */
  lemma {:induction false} GroupingAt(ps: seq<Labelled>, m: int, k: string)
    requires DatesOk(ps)
    ensures DaysAt(Grouping(ps), m, k) == InMonth(LabelDays(ps, k), m)
    decreases |ps|
  {
    if ps != [] {
      var init, r := ps[..|ps| - 1], ps[|ps| - 1];
      GroupingAt(init, m, k);
      GroupDaysAt(Grouping(init), r.tag, Days(r.row.start, r.row.end), m, k);
      InMonthAppend(LabelDays(init, k), if r.tag == k then Days(r.row.start, r.row.end) else [], m);
    }
  }

  /** The months of the days, in their order. */
  function MonthsOf(ds: seq<Date>): (r: seq<int>)
    ensures |r| == |ds| && forall i :: 0 <= i < |ds| ==> r[i] == ds[i].month
    decreases |ds|
  {
    if ds == [] then [] else MonthsOf(ds[..|ds| - 1]) + [ds[|ds| - 1].month]
  }

  lemma AddDayOk(g: Grouped, k: string, d: Date)
    requires WellGrouped(g)
    ensures WellGrouped(AddDay(g, k, d))
  {
    var r := AddDay(g, k, d);
    var b := r.buckets[d.month];
    if d.month in g.buckets {
      assert k !in g.buckets[d.month].days ==> k !in g.buckets[d.month].labels;
    }
    assert BucketOk(b, d.month);
  }

  lemma {:induction false} GroupDaysOk(g: Grouped, k: string, ds: seq<Date>)
    requires WellGrouped(g)
    ensures WellGrouped(GroupDays(g, k, ds))
    decreases |ds|
  {
    if ds != [] {
      GroupDaysOk(g, k, ds[..|ds| - 1]);
      AddDayOk(GroupDays(g, k, ds[..|ds| - 1]), k, ds[|ds| - 1]);
    }
  }

  /** Months enter the dictionary in the order their first day is met. */
  lemma {:induction false} GroupDaysMonths(g: Grouped, k: string, ds: seq<Date>, seen: seq<int>)
    requires WellGrouped(g) && g.months == Dedup(seen)
    ensures GroupDays(g, k, ds).months == Dedup(seen + MonthsOf(ds))
    decreases |ds|
  {
    if ds == [] {
      assert seen + MonthsOf(ds) == seen;
    } else {
      var init, d := ds[..|ds| - 1], ds[|ds| - 1];
      GroupDaysMonths(g, k, init, seen);
      GroupDaysOk(g, k, init);
      DedupSpec(seen + MonthsOf(init));
      DedupSnoc(seen + MonthsOf(init), d.month);
      assert seen + MonthsOf(ds) == (seen + MonthsOf(init)) + [d.month];
    }
  }

  /** A month's bucket is there once a day of that month has been met, and
      keeps the year of the first such day. */
  lemma {:induction false} GroupDaysYear(g: Grouped, k: string, ds: seq<Date>, m: int)
    ensures m in GroupDays(g, k, ds).buckets <==> m in g.buckets || InMonth(ds, m) != []
    ensures m in GroupDays(g, k, ds).buckets ==>
      GroupDays(g, k, ds).buckets[m].year == if m in g.buckets then g.buckets[m].year else InMonth(ds, m)[0].year
    decreases |ds|
  {
    if ds != [] {
      GroupDaysYear(g, k, ds[..|ds| - 1], m);
    }
  }

  lemma MonthsOfAppend(a: seq<Date>, b: seq<Date>)
    ensures MonthsOf(a + b) == MonthsOf(a) + MonthsOf(b)
  {
  }

  /** `grouped_dates` has the dictionary shape, and its months are the
      distinct months of all the periods' days in the order first met. */
  lemma {:induction false} GroupingShape(ps: seq<Labelled>)
    requires DatesOk(ps)
    ensures WellGrouped(Grouping(ps))
    ensures Grouping(ps).months == Dedup(MonthsOf(AllDays(ps)))
    decreases |ps|
  {
    if ps != [] {
      var init, r := ps[..|ps| - 1], ps[|ps| - 1];
      GroupingShape(init);
      GroupDaysOk(Grouping(init), r.tag, Days(r.row.start, r.row.end));
      GroupDaysMonths(Grouping(init), r.tag, Days(r.row.start, r.row.end), MonthsOf(AllDays(init)));
      MonthsOfAppend(AllDays(init), Days(r.row.start, r.row.end));
    } else {
      assert MonthsOf([]) == [];
    }
  }

  /** A month has a bucket exactly when some period has a day in it (in any
      year), and the bucket's year is the year of the first such day. */
  lemma {:induction false} GroupingYear(ps: seq<Labelled>, m: int)
    requires DatesOk(ps)
    ensures m in Grouping(ps).buckets <==> InMonth(AllDays(ps), m) != []
    ensures m in Grouping(ps).buckets ==> Grouping(ps).buckets[m].year == InMonth(AllDays(ps), m)[0].year
    decreases |ps|
  {
    if ps != [] {
      var init, r := ps[..|ps| - 1], ps[|ps| - 1];
      GroupingYear(init, m);
      GroupDaysYear(Grouping(init), r.tag, Days(r.row.start, r.row.end), m);
      InMonthAppend(AllDays(init), Days(r.row.start, r.row.end), m);
    }
  }

  // ---------------------------------------------------------------------------
  // How many days a label has across the buckets.
  // ---------------------------------------------------------------------------

  /** The number of days filed under `k` in the buckets of the months `ms`. */
  function Total(g: Grouped, ms: seq<int>, k: string): nat
    decreases |ms|
  {
    if ms == [] then 0 else Total(g, ms[..|ms| - 1], k) + |DaysAt(g, ms[|ms| - 1], k)|
  }

  /** The number of days of `ds` in the months `ms`. */
  function CountIn(ms: seq<int>, ds: seq<Date>): nat
    decreases |ms|
  {
    if ms == [] then 0 else CountIn(ms[..|ms| - 1], ds) + |InMonth(ds, ms[|ms| - 1])|
  }

  lemma {:induction false} CountInSnoc(ms: seq<int>, ds: seq<Date>, d: Date)
    ensures CountIn(ms, ds + [d]) == CountIn(ms, ds) + multiset(ms)[d.month]
    decreases |ms|
  {
    if ms != [] {
      var init := ms[..|ms| - 1];
      CountInSnoc(init, ds, d);
      assert (ds + [d])[..|ds|] == ds;
      assert ms == init + [ms[|ms| - 1]];
    }
  }

  /** Over distinct months that cover every day, each day is counted once. */
  lemma {:induction false} CountInAll(ms: seq<int>, ds: seq<Date>)
    requires NoDup(ms) && forall i :: 0 <= i < |ds| ==> ds[i].month in ms
    ensures CountIn(ms, ds) == |ds|
    decreases |ds|
  {
    if ds == [] {
      CountInEmpty(ms);
    } else {
      var init, d := ds[..|ds| - 1], ds[|ds| - 1];
      CountInAll(ms, init);
      CountInSnoc(ms, init, d);
      assert ds == init + [d];
      NoDupCount(ms, d.month);
    }
  }

  lemma {:induction false} CountInEmpty(ms: seq<int>)
    ensures CountIn(ms, []) == 0
    decreases |ms|
  {
    if ms != [] {
      CountInEmpty(ms[..|ms| - 1]);
    }
  }

  lemma {:induction false} TotalIsCount(ps: seq<Labelled>, ms: seq<int>, k: string)
    requires DatesOk(ps)
    ensures Total(Grouping(ps), ms, k) == CountIn(ms, LabelDays(ps, k))
    decreases |ms|
  {
    if ms != [] {
      TotalIsCount(ps, ms[..|ms| - 1], k);
      GroupingAt(ps, ms[|ms| - 1], k);
    }
  }

  /** Across all buckets, label `k` has as many days as the periods labelled `k` have together. */
  lemma LabelTotal(ps: seq<Labelled>, k: string)
    requires DatesOk(ps)
    ensures Total(Grouping(ps), Grouping(ps).months, k) == |LabelDays(ps, k)|
  {
    var g, ds := Grouping(ps), LabelDays(ps, k);
    GroupingShape(ps);
    TotalIsCount(ps, g.months, k);
    forall i | 0 <= i < |ds| ensures ds[i].month in g.months {
      GroupingAt(ps, ds[i].month, k);
      InMonthSpec(ds, ds[i].month);
      assert ds[i] in InMonth(ds, ds[i].month);
    }
    CountInAll(g.months, ds);
  }

  /** No other period bears row `i`'s label. */
  predicate UniqueLabelAt(ps: seq<Labelled>, i: nat)
    requires DatesOk(ps) && i < |ps|
  {
    forall j :: 0 <= j < |ps| && j != i ==> ps[j].tag != ps[i].tag
  }

  lemma {:induction false} LabelDaysOfUnique(ps: seq<Labelled>, i: nat)
    requires DatesOk(ps) && i < |ps| && UniqueLabelAt(ps, i)
    ensures LabelDays(ps, ps[i].tag) == Days(ps[i].row.start, ps[i].row.end)
    decreases |ps|
  {
    var init, k := ps[..|ps| - 1], ps[i].tag;
    if i < |init| {
      assert init[i] == ps[i];
      assert UniqueLabelAt(init, i) by {
        assert forall j :: 0 <= j < |init| ==> init[j] == ps[j];
      }
      LabelDaysOfUnique(init, i);
      assert ps[|ps| - 1].tag != k;
    } else {
      LabelDaysNone(init, k);
    }
  }

  lemma {:induction false} LabelDaysNone(ps: seq<Labelled>, k: string)
    requires DatesOk(ps) && forall j :: 0 <= j < |ps| ==> ps[j].tag != k
    ensures LabelDays(ps, k) == []
    decreases |ps|
  {
    if ps != [] {
      LabelDaysNone(ps[..|ps| - 1], k);
    }
  }

  /** For a period whose label no other period bears, the days filed under
      its label in a month's bucket are exactly its own days in that month,
      so every day of the period is filed in its month's bucket. */
  lemma PeriodDaysIn(ps: seq<Labelled>, i: nat, m: int)
    requires DatesOk(ps) && i < |ps| && UniqueLabelAt(ps, i)
    ensures var r := ps[i];
      forall d :: d in DaysAt(Grouping(ps), m, r.tag) <==> Wellformed(d) && Le(r.row.start, d) && Le(d, r.row.end) && d.month == m
  {
    var r := ps[i];
    var ds := Days(r.row.start, r.row.end);
    PeriodDaysMonth(ps, i, m);
    InMonthSpec(ds, m);
    DaysInRange(r.row.start, r.row.end);
    forall d | Wellformed(d) && Le(r.row.start, d) && Le(d, r.row.end) ensures d in ds {
      DaysComplete(r.row.start, r.row.end, d);
    }
  }

  lemma PeriodDaysMonth(ps: seq<Labelled>, i: nat, m: int)
    requires DatesOk(ps) && i < |ps| && UniqueLabelAt(ps, i)
    ensures DaysAt(Grouping(ps), m, ps[i].tag) == InMonth(Days(ps[i].row.start, ps[i].row.end), m)
  {
    LabelDaysOfUnique(ps, i);
    GroupingAt(ps, m, ps[i].tag);
  }

  /** ... and they are filed in ascending order, hence each once. */
  lemma PeriodDaysAscend(ps: seq<Labelled>, i: nat, m: int)
    requires DatesOk(ps) && i < |ps| && UniqueLabelAt(ps, i)
    ensures var ds := DaysAt(Grouping(ps), m, ps[i].tag);
      forall a, b :: 0 <= a < b < |ds| ==> Lt(ds[a], ds[b])
  {
    PeriodDaysMonth(ps, i, m);
    DaysInRange(ps[i].row.start, ps[i].row.end);
    InMonthSpec(Days(ps[i].row.start, ps[i].row.end), m);
  }

  /** Across the buckets the label of such a period has `(end - start).days + 1`
      days, and none when the end is before the start. */
  lemma PeriodTotal(ps: seq<Labelled>, i: nat)
    requires DatesOk(ps) && i < |ps| && UniqueLabelAt(ps, i)
    ensures var g, r := Grouping(ps), ps[i];
      Total(g, g.months, r.tag) == if Le(r.row.start, r.row.end) then Ordinal(r.row.end) - Ordinal(r.row.start) + 1 else 0
  {
    LabelDaysOfUnique(ps, i);
    LabelTotal(ps, ps[i].tag);
    DaysLength(ps[i].row.start, ps[i].row.end);
  }

  // ---------------------------------------------------------------------------
  // period_deadlines, period_messages, period_first_month
  // ---------------------------------------------------------------------------

  function DeadlineOf(r: PeriodRow): Date { r.deadline }
  function MessageOf(r: PeriodRow): string { r.message }
  function StartMonthOf(r: PeriodRow): int { r.start.month }

  /** `d[label] = f(period)` over the periods in order: a later period with the same label overwrites. */
  function ByLabel<V>(ps: seq<Labelled>, f: PeriodRow -> V): map<string, V>
    requires DatesOk(ps)
    decreases |ps|
  {
    if ps == [] then map[] else ByLabel(ps[..|ps| - 1], f)[ps[|ps| - 1].tag := f(ps[|ps| - 1].row)]
  }

  /** Row `i` is the last period bearing label `k`. */
  predicate LastLabelled(ps: seq<Labelled>, i: int, k: string)
    requires DatesOk(ps)
  {
    0 <= i < |ps| && ps[i].tag == k && forall j :: i < j < |ps| ==> ps[j].tag != k
  }

  /** A label is a key exactly when some period bears it. */
  lemma {:induction false} ByLabelKeys<V>(ps: seq<Labelled>, f: PeriodRow -> V, k: string)
    requires DatesOk(ps)
    ensures k in ByLabel(ps, f) <==> exists i :: 0 <= i < |ps| && ps[i].tag == k
    decreases |ps|
  {
    if ps != [] {
      var init, last := ps[..|ps| - 1], |ps| - 1;
      if ps[last].tag == k {
        assert k in ByLabel(ps, f);
      } else {
        ByLabelKeys(init, f, k);
        assert k in ByLabel(ps, f) <==> k in ByLabel(init, f);
        BearerInPrefix(ps, init, k);
      }
    }
  }

  lemma BearerInPrefix(ps: seq<Labelled>, init: seq<Labelled>, k: string)
    requires DatesOk(ps) && ps != [] && init == ps[..|ps| - 1] && ps[|ps| - 1].tag != k
    ensures (exists i :: 0 <= i < |ps| && ps[i].tag == k) <==> (exists i :: 0 <= i < |init| && init[i].tag == k)
  {
    if exists i :: 0 <= i < |ps| && ps[i].tag == k {
      var i :| 0 <= i < |ps| && ps[i].tag == k;
      assert init[i] == ps[i];
    }
    if exists i :: 0 <= i < |init| && init[i].tag == k {
      var i :| 0 <= i < |init| && init[i].tag == k;
      assert init[i] == ps[i];
    }
  }

  /** A label's value comes from the last period bearing it. */
  lemma {:induction false} ByLabelLast<V>(ps: seq<Labelled>, f: PeriodRow -> V, k: string)
    requires DatesOk(ps) && k in ByLabel(ps, f)
    ensures exists i :: LastLabelled(ps, i, k) && ByLabel(ps, f)[k] == f(ps[i].row)
    decreases |ps|
  {
    var init, last := ps[..|ps| - 1], |ps| - 1;
    if ps[last].tag == k {
      assert LastLabelled(ps, last, k);
    } else {
      ByLabelLast(init, f, k);
      var i :| LastLabelled(init, i, k) && ByLabel(init, f)[k] == f(init[i].row);
      LastLabelledExtend(ps, init, i, k);
    }
  }

  lemma LastLabelledExtend(ps: seq<Labelled>, init: seq<Labelled>, i: int, k: string)
    requires DatesOk(ps) && ps != [] && init == ps[..|ps| - 1]
    requires ps[|ps| - 1].tag != k && LastLabelled(init, i, k)
    ensures LastLabelled(ps, i, k) && ps[i] == init[i]
  {
    assert init[i] == ps[i];
    forall j | i < j < |ps| ensures ps[j].tag != k {
      if j < |init| {
        assert init[j] == ps[j];
      }
    }
  }

  lemma ByLabelSpec<V>(ps: seq<Labelled>, f: PeriodRow -> V, k: string)
    requires DatesOk(ps)
    ensures k in ByLabel(ps, f) <==> exists i :: 0 <= i < |ps| && ps[i].tag == k
    ensures k in ByLabel(ps, f) ==> exists i :: LastLabelled(ps, i, k) && ByLabel(ps, f)[k] == f(ps[i].row)
  {
    ByLabelKeys(ps, f, k);
    if k in ByLabel(ps, f) {
      ByLabelLast(ps, f, k);
    }
  }

  /** `period_first_month[label]` is the start month of every period bearing
      the label: equal labels mean equal start months. */
  lemma FirstMonthSpec(ps: seq<Labelled>, k: string)
    requires DatesOk(ps) && LabelsOk(ps)
    ensures k in ByLabel(ps, StartMonthOf) <==> exists i :: 0 <= i < |ps| && ps[i].tag == k
    ensures forall i :: 0 <= i < |ps| && ps[i].tag == k ==> ByLabel(ps, StartMonthOf)[k] == ps[i].row.start.month
  {
    ByLabelSpec(ps, StartMonthOf, k);
    forall i | 0 <= i < |ps| && ps[i].tag == k ensures ByLabel(ps, StartMonthOf)[k] == ps[i].row.start.month {
      var j :| LastLabelled(ps, j, k) && ByLabel(ps, StartMonthOf)[k] == StartMonthOf(ps[j].row);
      LabelInjective(ps[i].row.start, ps[i].row.end, ps[j].row.start, ps[j].row.end);
    }
  }

  // ---------------------------------------------------------------------------
  // sorted_periods and period_colors
  // ---------------------------------------------------------------------------

  /** Every month key of the dictionary has a bucket. */
  predicate Keyed(g: Grouped) {
    forall i :: 0 <= i < |g.months| ==> g.months[i] in g.buckets
  }

  /** The labels in the order the loops over the buckets meet them: bucket by
      bucket, each bucket's labels in insertion order. */
  function Flatten(g: Grouped, n: nat): seq<string>
    requires Keyed(g) && n <= |g.months|
  {
    if n == 0 then [] else Flatten(g, n - 1) + g.buckets[g.months[n - 1]].labels
  }

  /** `period_colors` after the loops: a label seen for the first time gets
      the palette entry at the number of labels coloured so far, modulo 3. */
  function ColoursOf(ls: seq<string>): map<string, string>
    decreases |ls|
  {
    if ls == [] then map[]
    else
      var m := ColoursOf(ls[..|ls| - 1]);
      if ls[|ls| - 1] in m then m else m[ls[|ls| - 1] := Palette[|m| % |Palette|]]
  }

  /** Every label met gets a colour and only those do, one per distinct label. */
  lemma {:induction false} ColoursKeys(ls: seq<string>)
    ensures forall k :: k in ColoursOf(ls) <==> k in ls
    ensures |ColoursOf(ls)| == |Dedup(ls)|
    decreases |ls|
  {
    if ls != [] {
      var init, x := ls[..|ls| - 1], ls[|ls| - 1];
      ColoursKeys(init);
      assert ls == init + [x];
      DedupSnoc(init, x);
    }
  }

  /** The `i`-th distinct label in the order met gets palette entry `i mod 3`. */
  lemma {:induction false} ColoursSpec(ls: seq<string>)
    ensures forall i :: 0 <= i < |Dedup(ls)| ==> Dedup(ls)[i] in ColoursOf(ls) && ColoursOf(ls)[Dedup(ls)[i]] == Palette[i % 3]
    decreases |ls|
  {
    if ls != [] {
      var init, x := ls[..|ls| - 1], ls[|ls| - 1];
      ColoursSpec(init);
      ColoursKeys(init);
      DedupSpec(init);
      assert ls == init + [x];
      DedupSnoc(init, x);
      if x !in init {
        ColoursStep(init, x);
      }
    }
  }

  lemma ColoursStep(init: seq<string>, x: string)
    requires x !in init
    requires forall k :: k in ColoursOf(init) <==> k in init
    requires |ColoursOf(init)| == |Dedup(init)|
    requires forall k :: k in Dedup(init) <==> k in init
    requires forall i :: 0 <= i < |Dedup(init)| ==> Dedup(init)[i] in ColoursOf(init) && ColoursOf(init)[Dedup(init)[i]] == Palette[i % 3]
    ensures var d, m := Dedup(init) + [x], ColoursOf(init + [x]);
      forall i :: 0 <= i < |d| ==> d[i] in m && m[d[i]] == Palette[i % 3]
  {
    assert (init + [x])[..|init|] == init;
    var d := Dedup(init) + [x];
    forall i | 0 <= i < |Dedup(init)| ensures d[i] != x {
      assert d[i] == Dedup(init)[i];
    }
  }

  /** Only the three palette entries are ever used. */
  lemma ColoursInPalette(ls: seq<string>)
    ensures forall k :: k in ColoursOf(ls) ==> ColoursOf(ls)[k] in Palette
  {
    ColoursKeys(ls);
    ColoursSpec(ls);
    DedupSpec(ls);
    forall k | k in ColoursOf(ls) ensures ColoursOf(ls)[k] in Palette {
      var i :| 0 <= i < |Dedup(ls)| && Dedup(ls)[i] == k;
    }
  }

  /** `sorted_periods`: the distinct labels, sorted by the start component's
      `(yy, mm, dd)` strings. Python's set gives no order to the labels it
      collects; the model takes them in the order met. */
  function SortedPeriods(ls: seq<string>): seq<string> {
    SortBy(Dedup(ls), LabelLe)
  }

  /** Each label met appears exactly once and nothing else does, in label order. */
  lemma SortedPeriodsSpec(ls: seq<string>)
    ensures NoDup(SortedPeriods(ls))
    ensures forall k :: k in SortedPeriods(ls) <==> k in ls
    ensures SortedBy(SortedPeriods(ls), LabelLe)
  {
    DedupSpec(ls);
    SortPerm(Dedup(ls), LabelLe);
    PermNoDup(SortedPeriods(ls), Dedup(ls));
    forall k ensures k in SortedPeriods(ls) <==> k in ls {
      assert k in SortedPeriods(ls) <==> k in multiset(SortedPeriods(ls));
      assert k in Dedup(ls) <==> k in multiset(Dedup(ls));
    }
    LabelLeTotalPreorder();
    SortSorted(Dedup(ls), LabelLe);
  }

  lemma GroupingKeyed(ps: seq<Labelled>)
    requires DatesOk(ps)
    ensures Keyed(Grouping(ps))
  {
    var g := Grouping(ps);
    forall i | 0 <= i < |g.months| ensures g.months[i] in g.buckets {
      GroupingMonth(ps, g.months[i]);
    }
  }

  lemma GroupingMonth(ps: seq<Labelled>, m: int)
    requires DatesOk(ps)
    ensures m in Grouping(ps).buckets <==> m in Grouping(ps).months
  {
    GroupingShape(ps);
  }

  /** In a month's bucket, a label is a key exactly when days are filed under it. */
  lemma GroupingLabel(ps: seq<Labelled>, m: int, k: string)
    requires DatesOk(ps) && m in Grouping(ps).buckets
    ensures k in Grouping(ps).buckets[m].labels <==> DaysAt(Grouping(ps), m, k) != []
  {
    GroupingShape(ps);
    assert BucketOk(Grouping(ps).buckets[m], m);
  }

  /** The labels the loops over `grouped_dates` meet are those of the periods
      that have at least one day, that is whose end is not before their start. */
  lemma LabelsMet(ps: seq<Labelled>, k: string)
    requires DatesOk(ps)
    ensures Keyed(Grouping(ps))
    ensures k in Flatten(Grouping(ps), |Grouping(ps).months|) <==>
      exists i :: 0 <= i < |ps| && ps[i].tag == k && Le(ps[i].row.start, ps[i].row.end)
  {
    GroupingKeyed(ps);
    LabelDaysEmpty(ps, k);
    if LabelDays(ps, k) != [] {
      LabelMetIfDays(ps, k);
    }
    DaysIfLabelMet(ps, k);
  }

  lemma LabelMetIfDays(ps: seq<Labelled>, k: string)
    requires DatesOk(ps) && LabelDays(ps, k) != []
    ensures Keyed(Grouping(ps)) && k in Flatten(Grouping(ps), |Grouping(ps).months|)
  {
    var g, ds := Grouping(ps), LabelDays(ps, k);
    GroupingKeyed(ps);
    var m := ds[0].month;
    GroupingAt(ps, m, k);
    InMonthSpec(ds, m);
    assert ds[0] in InMonth(ds, m);
    assert m in g.buckets;
    GroupingMonth(ps, m);
    GroupingLabel(ps, m, k);
    var j :| 0 <= j < |g.months| && g.months[j] == m;
    FlattenMember(g, |g.months|, k);
  }

  lemma DaysIfLabelMet(ps: seq<Labelled>, k: string)
    requires DatesOk(ps)
    ensures Keyed(Grouping(ps))
    ensures k in Flatten(Grouping(ps), |Grouping(ps).months|) ==> LabelDays(ps, k) != []
  {
    var g := Grouping(ps);
    GroupingKeyed(ps);
    FlattenMember(g, |g.months|, k);
    if k in Flatten(g, |g.months|) {
      var j :| 0 <= j < |g.months| && k in g.buckets[g.months[j]].labels;
      GroupingAt(ps, g.months[j], k);
      GroupingLabel(ps, g.months[j], k);
    }
  }

  lemma {:induction false} FlattenMember(g: Grouped, n: nat, k: string)
    requires Keyed(g) && n <= |g.months|
    ensures k in Flatten(g, n) <==> exists j :: 0 <= j < n && k in g.buckets[g.months[j]].labels
  {
    if n > 0 {
      FlattenMember(g, n - 1, k);
    }
  }

  lemma {:induction false} LabelDaysEmpty(ps: seq<Labelled>, k: string)
    requires DatesOk(ps)
    ensures LabelDays(ps, k) != [] <==> exists i :: 0 <= i < |ps| && ps[i].tag == k && Le(ps[i].row.start, ps[i].row.end)
    decreases |ps|
  {
    if ps != [] {
      var init, r := ps[..|ps| - 1], ps[|ps| - 1];
      LabelDaysEmpty(init, k);
      assert forall i :: 0 <= i < |init| ==> init[i] == ps[i];
      assert Days(r.row.start, r.row.end) != [] <==> Le(r.row.start, r.row.end);
    }
  }

  // ---------------------------------------------------------------------------
  // The aggregation as the page handler runs it.
  // ---------------------------------------------------------------------------

  datatype CalendarView = CalendarView(
    grouped: Grouped,
    deadlines: map<string, Date>,
    messages: map<string, string>,
    firstMonth: map<string, int>,
    sorted: seq<string>,
    colours: map<string, string>)

  /** What the aggregation hands to the calendar template. */
  function CalendarOf(ps: seq<Labelled>): CalendarView
    requires DatesOk(ps)
  {
    var g := Grouping(ps);
    GroupingKeyed(ps);
    var ls := Flatten(g, |g.months|);
    CalendarView(g, ByLabel(ps, DeadlineOf), ByLabel(ps, MessageOf), ByLabel(ps, StartMonthOf),
                 SortedPeriods(ls), ColoursOf(ls))
  }

  /** Every label of the page: a label is sorted and coloured exactly when
      some period bearing it has at least one day; the sorted labels are
      distinct and in label order, and the colours come from the palette. */
  lemma CalendarLabels(ps: seq<Labelled>, k: string)
    requires DatesOk(ps)
    ensures var v := CalendarOf(ps);
      && (k in v.sorted <==> exists i :: 0 <= i < |ps| && ps[i].tag == k && Le(ps[i].row.start, ps[i].row.end))
      && (k in v.colours <==> k in v.sorted)
      && (k in v.colours ==> v.colours[k] in Palette)
      && NoDup(v.sorted) && SortedBy(v.sorted, LabelLe)
      && (k in v.deadlines <==> exists i :: 0 <= i < |ps| && ps[i].tag == k)
  {
    var g := Grouping(ps);
    LabelsMet(ps, k);
    var ls := Flatten(g, |g.months|);
    SortedPeriodsSpec(ls);
    ColoursKeys(ls);
    ColoursInPalette(ls);
    ByLabelKeys(ps, DeadlineOf, k);
  }

  /** With no plan periods the page shows no month, no label and no colour. */
  lemma CalendarOfNothing()
    ensures var v := CalendarOf([]);
      v.grouped.months == [] && v.sorted == [] && v.colours == map[] && v.deadlines == map[]
  {
    var v := CalendarOf([]);
    assert Flatten(v.grouped, 0) == [];
  }

  /** The loop over one period's `(end - start).days + 1` days, stepping a day at a time. */
  method AddPeriodDays(g: Grouped, k: string, start: Date, end: Date) returns (r: Grouped)
    requires Wellformed(start) && Wellformed(end)
    ensures r == GroupDays(g, k, Days(start, end))
  {
    ghost var ds := Days(start, end);
    DaysLength(start, end);
    var n := Ordinal(end) - Ordinal(start) + 1;
    var day := start;
    r := g;
    for i := 0 to if n > 0 then n else 0
      invariant Wellformed(day)
      invariant Days(day, end) == ds[i..]
      invariant r == GroupDays(g, k, ds[..i])
    {
      DayStep(g, k, ds, i, day, end);
      r := FileDay(r, k, day);
      day := NextDay(day);
    }
    assert ds[..|ds|] == ds;
  }

  /** One turn of the day loop: the day at hand is the next of the range, and
      filing it extends the grouping by one day. */
  lemma DayStep(g: Grouped, k: string, ds: seq<Date>, i: nat, day: Date, end: Date)
    requires Wellformed(day) && i < |ds| && Days(day, end) == ds[i..]
    ensures ds[i] == day && Days(NextDay(day), end) == ds[i + 1..]
    ensures GroupDays(g, k, ds[..i + 1]) == AddDay(GroupDays(g, k, ds[..i]), k, ds[i])
  {
    PrefixSnoc(ds, i);
    assert ds[..i + 1][..i] == ds[..i];
    assert ds[i..] == [ds[i]] + ds[i + 1..];
  }

  lemma ColoursSnoc(ls: seq<string>, x: string)
    ensures ColoursOf(ls + [x]) ==
      if x in ColoursOf(ls) then ColoursOf(ls) else ColoursOf(ls)[x := Palette[|ColoursOf(ls)| % |Palette|]]
  {
    assert (ls + [x])[..|ls|] == ls;
  }

  /** One day of the loop: the bucket of its month and the label's list are
      created when missing, then the day is appended. */
  method FileDay(g: Grouped, k: string, day: Date) returns (r: Grouped)
    ensures r == AddDay(g, k, day)
  {
    r := g;
    ghost var b0 := if day.month in g.buckets then g.buckets[day.month] else Bucket(day.year, [], map[]);
    if day.month !in r.buckets {
      r := r.(months := r.months + [day.month], buckets := r.buckets[day.month := Bucket(day.year, [], map[])]);
    }
    var b := r.buckets[day.month];
    assert b == b0;
    if k !in b.days {
      b := b.(labels := b.labels + [k], days := b.days[k := []]);
      assert b.days[k] + [day] == [day];
      assert b.days[k := b.days[k] + [day]] == b0.days[k := [day]];
    }
    b := b.(days := b.days[k := b.days[k] + [day]]);
    r := r.(buckets := r.buckets[day.month := b]);
    assert r.buckets == g.buckets[day.month := b];
  }

  /** `period_colors`: the loops over the buckets and their labels. */
  method AssignColours(g: Grouped) returns (c: map<string, string>)
    requires Keyed(g)
    ensures c == ColoursOf(Flatten(g, |g.months|))
  {
    c := map[];
    for i := 0 to |g.months|
      invariant c == ColoursOf(Flatten(g, i))
    {
      c := ColourLabels(c, Flatten(g, i), g.buckets[g.months[i]].labels);
    }
  }

  /** The inner loop over one bucket's labels. */
  method ColourLabels(c0: map<string, string>, seen: seq<string>, labels: seq<string>) returns (c: map<string, string>)
    requires c0 == ColoursOf(seen)
    ensures c == ColoursOf(seen + labels)
  {
    c := c0;
    assert seen + labels[..0] == seen;
    for j := 0 to |labels|
      invariant c == ColoursOf(seen + labels[..j])
    {
      ColoursSnoc(seen + labels[..j], labels[j]);
      assert seen + labels[..j + 1] == seen + labels[..j] + [labels[j]];
      if labels[j] !in c {
        c := c[labels[j] := Palette[|c| % |Palette|]];
      }
    }
    assert labels[..|labels|] == labels;
  }

  /** One more period extends the grouping and the label-keyed maps by that period. */
  lemma ScanStep(ps: seq<Labelled>, i: nat)
    requires DatesOk(ps) && i < |ps|
    ensures DatesOk(ps[..i]) && DatesOk(ps[..i + 1])
    ensures Grouping(ps[..i + 1]) == GroupDays(Grouping(ps[..i]), ps[i].tag, Days(ps[i].row.start, ps[i].row.end))
  {
    assert ps[..i + 1][..i] == ps[..i];
  }

  lemma ByLabelStep<V>(ps: seq<Labelled>, i: nat, f: PeriodRow -> V)
    requires DatesOk(ps) && i < |ps|
    ensures DatesOk(ps[..i]) && DatesOk(ps[..i + 1])
    ensures ByLabel(ps[..i + 1], f) == ByLabel(ps[..i], f)[ps[i].tag := f(ps[i].row)]
  {
    assert ps[..i + 1][..i] == ps[..i];
  }

  /** The pass over the periods: each period's label gets its deadline,
      message and start month, and each of its days is filed. */
  method ScanPeriods(rows: seq<PeriodRow>) returns (g: Grouped, deadlines: map<string, Date>,
                                                 messages: map<string, string>, firstMonth: map<string, int>)
    requires RowsOk(rows)
    ensures var ps := WithLabels(rows);
      && g == Grouping(ps)
      && deadlines == ByLabel(ps, DeadlineOf) && messages == ByLabel(ps, MessageOf)
      && firstMonth == ByLabel(ps, StartMonthOf)
  {
    ghost var ps := WithLabels(rows);
    g := Grouped([], map[]);
    deadlines, messages, firstMonth := map[], map[], map[];
    for i := 0 to |rows|
      invariant DatesOk(ps[..i])
      invariant g == Grouping(ps[..i])
      invariant deadlines == ByLabel(ps[..i], DeadlineOf)
      invariant messages == ByLabel(ps[..i], MessageOf)
      invariant firstMonth == ByLabel(ps[..i], StartMonthOf)
    {
      ScanStep(ps, i);
      ByLabelStep(ps, i, DeadlineOf);
      ByLabelStep(ps, i, MessageOf);
      ByLabelStep(ps, i, StartMonthOf);
      var p := rows[i];
      var text := Label(p.start, p.end);
      assert ps[i] == Labelled(text, p);
      deadlines := deadlines[text := p.deadline];
      messages := messages[text := p.message];
      firstMonth := firstMonth[text := p.start.month];
      g := AddPeriodDays(g, text, p.start, p.end);
    }
    assert ps[..|rows|] == ps;
  }

  /** The aggregation: one pass over the periods fills the label-keyed maps
      and the month buckets; then the labels are sorted and coloured. */
  method BuildCalendar(rows: seq<PeriodRow>) returns (v: CalendarView)
    requires RowsOk(rows)
    ensures v == CalendarOf(WithLabels(rows))
  {
    var g, deadlines, messages, firstMonth := ScanPeriods(rows);
    GroupingKeyed(WithLabels(rows));
    var sorted := SortedPeriods(Flatten(g, |g.months|));
    var colours := AssignColours(g);
    v := CalendarView(g, deadlines, messages, firstMonth, sorted, colours);
  }

  // ---------------------------------------------------------------------------
  // load_period_notes
  // ---------------------------------------------------------------------------

  datatype DialogError =
    | NoPeriodGiven    // the form carried no period, or an empty one
    | PeriodNotFound   // no plan period bears the label

  /** What the notes dialog shows. */
  datatype NotesDialog = NotesDialog(period: string, deadline: Date, message: string, notes: string, color: Option<string>)

  /** Row `i` is the first period bearing label `k`. */
  predicate FirstLabelled(rows: seq<PeriodRow>, i: int, k: string)
    requires RowsOk(rows)
  {
    0 <= i < |rows| && LabelOf(rows[i]) == k && forall j :: 0 <= j < i ==> LabelOf(rows[j]) != k
  }

  predicate Bears(r: PeriodRow, k: string) {
    Wellformed(r.start) && Wellformed(r.end) && LabelOf(r) == k
  }

  /** The dialog for the period named by the form: an error without a name,
      or when no period bears it; otherwise the first period bearing it, with
      the person's notes for that label or the empty text. */
  function PeriodNotes(rows: seq<PeriodRow>, userNotes: map<string, string>, period: Option<string>, color: Option<string>): (r: Result<NotesDialog, DialogError>)
    requires RowsOk(rows)
    ensures r == Err(NoPeriodGiven) <==> period.None? || period.value == ""
    ensures r == Err(PeriodNotFound) <==>
      period.Some? && period.value != "" && forall i :: 0 <= i < |rows| ==> LabelOf(rows[i]) != period.value
    ensures r.Ok? ==> exists i ::
      && FirstLabelled(rows, i, period.value)
      && r.value == NotesDialog(period.value, rows[i].deadline, rows[i].message,
                                if period.value in userNotes then userNotes[period.value] else "", color)
  {
    if period.None? || period.value == "" then Err(NoPeriodGiven)
    else
      var k := period.value;
      match FirstWhere(rows, (r: PeriodRow) => Bears(r, k))
      case None => Err(PeriodNotFound)
      case Some(i) =>
        assert FirstLabelled(rows, i, k);
        Ok(NotesDialog(k, rows[i].deadline, rows[i].message, if k in userNotes then userNotes[k] else "", color))
  }

  /** `load_period_notes`: the loop stops at the first period whose label is the requested one. */
  method LoadPeriodNotes(rows: seq<PeriodRow>, userNotes: map<string, string>, period: Option<string>, color: Option<string>)
    returns (r: Result<NotesDialog, DialogError>)
    requires RowsOk(rows)
    ensures r == PeriodNotes(rows, userNotes, period, color)
  {
    if period.None? || period.value == "" {
      return Err(NoPeriodGiven);
    }
    var k := period.value;
    var i := 0;
    while i < |rows| && Label(rows[i].start, rows[i].end) != k
      invariant i <= |rows|
      invariant forall j :: 0 <= j < i ==> !Bears(rows[j], k)
    {
      i := i + 1;
    }
    FirstWhereAt(rows, (p: PeriodRow) => Bears(p, k), i);
    if i == |rows| {
      return Err(PeriodNotFound);
    }
    var p := rows[i];
    r := Ok(NotesDialog(k, p.deadline, p.message, if k in userNotes then userNotes[k] else "", color));
  }

  lemma PlanRowsOk(periods: seq<PlanPeriod>)
    requires PeriodDatesOk(periods)
    ensures RowsOk(PlanPeriodRows(periods))
  {
    var rows := PlanPeriodRows(periods);
    RowsFromPeriods(periods);
    forall i | 0 <= i < |rows| ensures Wellformed(rows[i].start) && Wellformed(rows[i].end) {
      var k :| 0 <= k < |periods| && periods[k].Active() && rows[i] == RowOf(periods[k]);
    }
  }

  /** When some period bears the label, the dialog opens and shows the
      person's notes for it, or the empty text. */
  lemma DialogShowsNotes(rows: seq<PeriodRow>, userNotes: map<string, string>, j: nat, color: Option<string>)
    requires RowsOk(rows) && j < |rows|
    ensures var k := LabelOf(rows[j]);
            var r := PeriodNotes(rows, userNotes, Some(k), color);
      r.Ok? && r.value.notes == if k in userNotes then userNotes[k] else ""
  {
    var k := LabelOf(rows[j]);
    assert |k| >= 3;
  }

  /** Saving notes for an active plan period and then opening its notes
      dialog shows those notes, or the empty text when they were cleared. */
  lemma NotesDialogAfterSave(db: Db, user: Id, i: nat, notes: Option<string>, now: Stamp, color: Option<string>)
    requires Consistent(db) && i < |db.planPeriods| && db.planPeriods[i].Active() && HasPerson(db, user)
    requires 1969 <= db.planPeriods[i].start.year <= 2068 && 1969 <= db.planPeriods[i].end.year <= 2068
    requires PeriodDatesOk(db.planPeriods) && UniqueLabel(db.planPeriods, i)
    ensures var text := Label(db.planPeriods[i].start, db.planPeriods[i].end);
            var db' := SaveNote(db, user, text, notes, now).db;
      && PeriodDatesOk(db'.planPeriods)
      && RowsOk(PlanPeriodRows(db'.planPeriods))
      && var r := PeriodNotes(PlanPeriodRows(db'.planPeriods), UserNotes(db', Some(user)), Some(text), color);
         r.Ok? && r.value.notes == (if notes.Some? then notes.value else "")
  {
    var periods := db.planPeriods;
    var text := Label(periods[i].start, periods[i].end);
    SaveNoteReadBack(db, user, i, notes, now);
    var db' := SaveNote(db, user, text, notes, now).db;
    PlanRowsOk(periods);
    var rows := PlanPeriodRows(periods);
    PeriodsHaveRows(periods);
    var j :| 0 <= j < |rows| && rows[j] == RowOf(periods[i]);
    DialogShowsNotes(rows, UserNotes(db', Some(user)), j, color);
  }
}
