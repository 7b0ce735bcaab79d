/**
 * The per-company financial summary: rows (company, year, revenue, profit) are
 * grouped by company in ascending key order, each group is ordered by year, a
 * company whose largest revenue is below the threshold is dropped as a whole,
 * and every other company gets its mean profit, the growth of revenue between
 * its last two years and the profit margin of its last year.
 */
module DataAggregation {
  import opened Sums

  /** One company-year observation. */
  datatype Record = Record(company: string, year: int, revenue: real, profit: real)

  /**
   * A ratio as numpy's float division gives it. The row read with `iloc`
   * holds numpy scalars, so dividing by zero does not raise: it gives an
   * infinity signed like the numerator, or NaN when the numerator is zero.
   */
  datatype Ratio = Finite(value: real) | PositiveInfinity | NegativeInfinity | NotANumber

  /** The `yoy_growth_%` entry: a rounded percentage, or "N/A" for a company with one row. */
  datatype Growth = NotApplicable | Percent(percent: Ratio)

  /** One output row: `company`, `avg_profit`, `yoy_growth_%`, `profit_margin_%`. */
  datatype Summary = Summary(company: string, avgProfit: real, yoyGrowth: Growth, profitMargin: Ratio)

  /** `num / 0` on numpy floats. */
  function OverZero(num: real): (r: Ratio)
    ensures !r.Finite?
    ensures r == PositiveInfinity <==> num > 0.0
    ensures r == NegativeInfinity <==> num < 0.0
    ensures r == NotANumber <==> num == 0.0
  {
    if num > 0.0 then PositiveInfinity else if num < 0.0 then NegativeInfinity else NotANumber
  }

  function Profit(r: Record): real { r.profit }

  // ---------------------------------------------------------------------------
  // Rounding to two decimals
  // ---------------------------------------------------------------------------

  /**
   * `round(x, 2)` on an exact value: the nearest multiple of 0.01, a tie going
   * to the even multiple.
   */
  function Round2(x: real): (r: real)
    ensures (r * 100.0).Floor as real == r * 100.0
    ensures -0.005 <= r - x <= 0.005
    ensures x * 100.0 - (x * 100.0).Floor as real == 0.5 ==> (r * 100.0).Floor % 2 == 0
  {
    var y := x * 100.0;
    var f := y.Floor;
    var d := y - f as real;
    var n := if d < 0.5 then f else if d > 0.5 then f + 1 else if f % 2 == 0 then f else f + 1;
    n as real / 100.0
  }

  // ---------------------------------------------------------------------------
  // Company keys and their order
  // ---------------------------------------------------------------------------

  /** Python's `<` on strings: lexicographic by code point, a proper prefix first. */
  predicate Before(a: string, b: string)
  {
    if a == [] then b != []
    else if b == [] then false
    else if a[0] == b[0] then Before(a[1..], b[1..])
    else a[0] < b[0]
  }

  lemma {:induction false} BeforeIrreflexive(a: string)
    ensures !Before(a, a)
  {
    if a != [] {
      BeforeIrreflexive(a[1..]);
    }
  }

  lemma {:induction false} BeforeTransitive(a: string, b: string, c: string)
    requires Before(a, b) && Before(b, c)
    ensures Before(a, c)
  {
    if a != [] && b != [] && c != [] && a[0] == b[0] && b[0] == c[0] {
      BeforeTransitive(a[1..], b[1..], c[1..]);
    }
  }

  lemma {:induction false} BeforeTotal(a: string, b: string)
    ensures a == b || Before(a, b) || Before(b, a)
  {
    if a != [] && b != [] && a[0] == b[0] {
      BeforeTotal(a[1..], b[1..]);
      assert a == [a[0]] + a[1..] && b == [b[0]] + b[1..];
    }
  }

  predicate StrictlyAscending(cs: seq<string>)
  {
    forall i, j :: 0 <= i < j < |cs| ==> Before(cs[i], cs[j])
  }

  /** Some row of `records` belongs to company `c`. */
  predicate Appears(records: seq<Record>, c: string)
  {
    exists r :: r in records && r.company == c
  }

  lemma {:induction false} BeforeAll(c: string, cs: seq<string>)
    requires StrictlyAscending(cs) && cs != [] && Before(c, cs[0])
    ensures forall j :: 0 <= j < |cs| ==> Before(c, cs[j])
  {
    forall j | 0 < j < |cs| ensures Before(c, cs[j]) {
      BeforeTransitive(c, cs[0], cs[j]);
    }
  }

  /** Adds key `c` to an ascending list of distinct keys. */
  function InsertCompany(c: string, cs: seq<string>): (r: seq<string>)
    requires StrictlyAscending(cs)
    ensures StrictlyAscending(r)
    ensures forall x :: x in r <==> x == c || x in cs
  {
    if cs == [] then [c]
    else if c == cs[0] then cs
    else if Before(c, cs[0]) then
      BeforeAll(c, cs);
      [c] + cs
    else
      BeforeTotal(c, cs[0]);
      var rest := InsertCompany(c, cs[1..]);
      assert forall x :: x in rest ==> Before(cs[0], x);
      AscendingCons(cs[0], rest);
      [cs[0]] + rest
  }

  lemma AscendingCons(c: string, cs: seq<string>)
    requires StrictlyAscending(cs)
    requires forall x :: x in cs ==> Before(c, x)
    ensures StrictlyAscending([c] + cs)
  {
    forall i, j | 0 <= i < j < |[c] + cs| ensures Before(([c] + cs)[i], ([c] + cs)[j]) {
      if i > 0 {
        assert ([c] + cs)[i] == cs[i - 1] && ([c] + cs)[j] == cs[j - 1];
      } else {
        assert ([c] + cs)[j] in cs;
      }
    }
  }

  /** The keys `groupby("company")` visits: every company once, in ascending order. */
  function Companies(records: seq<Record>): (cs: seq<string>)
    ensures StrictlyAscending(cs)
    ensures forall c :: c in cs <==> Appears(records, c)
  {
    if records == [] then []
    else
      assert forall r :: r in records <==> r == records[0] || r in records[1..];
      InsertCompany(records[0].company, Companies(records[1..]))
  }

  // ---------------------------------------------------------------------------
  // Groups
  // ---------------------------------------------------------------------------

  /** The rows of company `c`, in input order. */
  function Rows(records: seq<Record>, c: string): (g: seq<Record>)
    ensures forall r :: r in g <==> r in records && r.company == c
  {
    if records == [] then []
    else
      assert forall r :: r in records <==> r == records[0] || r in records[1..];
      (if records[0].company == c then [records[0]] else []) + Rows(records[1..], c)
  }

  /** A company's group holds each of its rows as many times as the input does, and no other row. */
  lemma {:induction false} RowsCount(records: seq<Record>, c: string, r: Record)
    ensures multiset(Rows(records, c))[r] == if r.company == c then multiset(records)[r] else 0
  {
    if records != [] {
      assert records == [records[0]] + records[1..];
      RowsCount(records[1..], c, r);
    }
  }

  /** Rows keep their input order: the rows of two parts of the input are those of each part in turn. */
  lemma {:induction false} RowsConcat(a: seq<Record>, b: seq<Record>, c: string)
    ensures Rows(a + b, c) == Rows(a, c) + Rows(b, c)
  {
    if a == [] {
      assert a + b == b;
    } else {
      assert (a + b)[1..] == a[1..] + b;
      RowsConcat(a[1..], b, c);
    }
  }

  /** One `(company, group)` pair produced by `groupby`. */
  datatype Group = Group(company: string, rows: seq<Record>)

  /**
   * `df.groupby("company")`: one group per company of the input, by ascending
   * key, each holding that company's rows.
   */
  function GroupBy(records: seq<Record>): (gs: seq<Group>)
    ensures forall k :: 0 <= k < |gs| ==> |gs[k].rows| > 0 && gs[k].rows == Rows(records, gs[k].company)
    ensures forall i, j :: 0 <= i < j < |gs| ==> Before(gs[i].company, gs[j].company)
    ensures forall c :: Appears(records, c) <==> HasGroup(gs, c)
  {
    GroupsOfCompanies(records);
    GroupsOf(records, Companies(records))
  }

  /** One group per key of `cs`, in the order of `cs`. */
  function GroupsOf(records: seq<Record>, cs: seq<string>): seq<Group>
  {
    seq(|cs|, k requires 0 <= k < |cs| => Group(cs[k], Rows(records, cs[k])))
  }

  lemma GroupsOfCompanies(records: seq<Record>)
    ensures var cs, gs := Companies(records), GroupsOf(records, Companies(records));
      && |gs| == |cs|
      && (forall k :: 0 <= k < |gs| ==> gs[k].company == cs[k])
      && (forall k :: 0 <= k < |gs| ==> |gs[k].rows| > 0 && gs[k].rows == Rows(records, gs[k].company))
      && (forall i, j :: 0 <= i < j < |gs| ==> Before(gs[i].company, gs[j].company))
      && (forall c :: Appears(records, c) <==> HasGroup(gs, c))
  {
    var cs := Companies(records);
    var gs := GroupsOf(records, cs);
    forall k | 0 <= k < |gs|
      ensures gs[k].company == cs[k] && |gs[k].rows| > 0 && gs[k].rows == Rows(records, gs[k].company)
    {
      assert cs[k] in cs;
      var r :| r in records && r.company == cs[k];
      assert r in Rows(records, cs[k]);
    }
    forall c | Appears(records, c) ensures HasGroup(gs, c) {
      var k :| 0 <= k < |cs| && cs[k] == c;
      assert gs[k].company == c;
    }
    forall c | HasGroup(gs, c) ensures Appears(records, c) {
      var k :| 0 <= k < |gs| && gs[k].company == c;
      assert cs[k] in cs;
    }
  }

  /** Some group of `gs` has key `c`. */
  predicate HasGroup(gs: seq<Group>, c: string)
  {
    exists k :: 0 <= k < |gs| && gs[k].company == c
  }

  predicate YearSorted(s: seq<Record>)
  {
    forall i, j :: 0 <= i < j < |s| ==> s[i].year <= s[j].year
  }

  /** Puts `x` into a year-sorted group, after the rows with a smaller year. */
  function InsertByYear(x: Record, s: seq<Record>): (r: seq<Record>)
    requires YearSorted(s)
    ensures YearSorted(r)
    ensures multiset(r) == multiset(s) + multiset{x}
  {
    if s == [] then [x]
    else if x.year <= s[0].year then [x] + s
    else
      assert s == [s[0]] + s[1..];
      var rest := InsertByYear(x, s[1..]);
      YearSortedCons(s[0], x, s[1..], rest);
      [s[0]] + rest
  }

  lemma YearSortedCons(first: Record, x: Record, tail: seq<Record>, rest: seq<Record>)
    requires YearSorted(rest) && YearSorted([first] + tail)
    requires first.year < x.year
    requires multiset(rest) == multiset(tail) + multiset{x}
    ensures YearSorted([first] + rest)
  {
    forall k | 0 <= k < |rest| ensures first.year <= rest[k].year {
      assert rest[k] in multiset(rest);
      if rest[k] != x {
        assert rest[k] in tail;
        var m :| 0 <= m < |tail| && tail[m] == rest[k];
        assert ([first] + tail)[m + 1] == tail[m] && ([first] + tail)[0] == first;
        assert ([first] + tail)[0].year <= ([first] + tail)[m + 1].year;
      }
    }
    forall i, j | 0 <= i < j < |[first] + rest| ensures ([first] + rest)[i].year <= ([first] + rest)[j].year {
      if i > 0 {
        assert ([first] + rest)[i] == rest[i - 1] && ([first] + rest)[j] == rest[j - 1];
      } else {
        assert ([first] + rest)[j] == rest[j - 1];
      }
    }
  }

  /**
   * `group.sort_values("year")`. The model fixes one order for rows with equal
   * years; no property below depends on that choice.
   */
  function SortByYear(g: seq<Record>): (s: seq<Record>)
    ensures YearSorted(s)
    ensures multiset(s) == multiset(g)
  {
    if g == [] then []
    else
      assert g == [g[0]] + g[1..];
      InsertByYear(g[0], SortByYear(g[1..]))
  }

  lemma SortByYearRows(g: seq<Record>)
    ensures |SortByYear(g)| == |g|
    ensures forall r :: r in SortByYear(g) <==> r in g
  {
    var s := SortByYear(g);
    assert |s| == |multiset(s)| == |multiset(g)| == |g|;
    forall r ensures r in s <==> r in g {
      assert r in s <==> r in multiset(s);
      assert r in g <==> r in multiset(g);
    }
  }

  /** `group["revenue"].max()`. */
  function MaxRevenue(s: seq<Record>): (m: real)
    requires |s| > 0
    ensures forall r :: r in s ==> r.revenue <= m
    ensures exists r :: r in s && r.revenue == m
  {
    if |s| == 1 then s[0].revenue
    else
      var rest := MaxRevenue(s[1..]);
      assert forall r :: r in s ==> r == s[0] || r in s[1..];
      if s[0].revenue >= rest then s[0].revenue else rest
  }

  // ---------------------------------------------------------------------------
  // One company's metrics
  // ---------------------------------------------------------------------------

  /** `group.iloc[-1]`. */
  function Latest(s: seq<Record>): Record
    requires |s| > 0
  {
    s[|s| - 1]
  }

  /** `group.iloc[-2]`. */
  function Previous(s: seq<Record>): Record
    requires |s| > 1
  {
    s[|s| - 2]
  }

  /**
   * `latest - prev` over `prev`, times 100, as numpy floats compute it: a
   * zero `prev` gives an infinity signed like `latest`, or NaN when `latest`
   * is zero too.
   */
  function GrowthPercent(prev: real, latest: real): (r: Ratio)
    ensures r.Finite? <==> prev != 0.0
    ensures r.Finite? ==> r.value * prev == (latest - prev) * 100.0
    ensures prev == 0.0 ==> r == OverZero(latest)
  {
    if prev == 0.0 then OverZero(latest - prev) else Finite((latest - prev) / prev * 100.0)
  }

  /** `profit` over `revenue`, times 100, as numpy floats compute it. */
  function MarginPercent(profit: real, revenue: real): (r: Ratio)
    ensures r.Finite? <==> revenue != 0.0
    ensures r.Finite? ==> r.value * revenue == profit * 100.0
    ensures revenue == 0.0 ==> r == OverZero(profit)
  {
    if revenue == 0.0 then OverZero(profit) else Finite(profit / revenue * 100.0)
  }

  /** `round(x, 2)` on a ratio: a finite value is rounded, an infinity or NaN stays as it is. */
  function RoundRatio(x: Ratio): (r: Ratio)
    ensures r.Finite? <==> x.Finite?
    ensures r.Finite? ==> -0.005 <= r.value - x.value <= 0.005
    ensures !x.Finite? ==> r == x
  {
    match x
    case Finite(v) => Finite(Round2(v))
    case _ => x
  }

  /**
   * The summary of one kept company from its year-sorted group `s`. A zero
   * revenue in the latest row leaves the margin non-finite, and a zero
   * revenue in the second-to-last row leaves the growth non-finite; neither
   * stops the summary.
   */
  function GroupSummary(company: string, s: seq<Record>): (r: Summary)
    requires |s| > 0
    ensures r.company == company
    ensures r.yoyGrowth.NotApplicable? <==> |s| == 1
    ensures r.profitMargin.Finite? <==> Latest(s).revenue != 0.0
    ensures |s| >= 2 ==> (r.yoyGrowth.percent.Finite? <==> Previous(s).revenue != 0.0)
  {
    var avg := SumOf(s, Profit) / |s| as real;
    var yoy :=
      if |s| >= 2 then Percent(RoundRatio(GrowthPercent(Previous(s).revenue, Latest(s).revenue)))
      else NotApplicable;
    Summary(company, Round2(avg), yoy, RoundRatio(MarginPercent(Latest(s).profit, Latest(s).revenue)))
  }

  /** What the loop body does with one group: `continue`, or append a summary. */
  datatype Step = Skip | Emit(summary: Summary)

  /**
   * The loop body: sort the group by year, skip it when its largest revenue is
   * below the threshold, otherwise summarise it.
   */
  function GroupStep(g: Group, minRevenue: real): (st: Step)
    requires |g.rows| > 0
    ensures st.Skip? <==> forall r :: r in g.rows ==> r.revenue < minRevenue
    ensures st.Emit? ==> st.summary == GroupSummary(g.company, SortByYear(g.rows))
    ensures st.Emit? ==> st.summary.company == g.company
  {
    var s := SortByYear(g.rows);
    SortByYearRows(g.rows);
    if MaxRevenue(s) < minRevenue then Skip else Emit(GroupSummary(g.company, s))
  }

  // ---------------------------------------------------------------------------
  // The whole summary
  // ---------------------------------------------------------------------------

  /** `step` may be applied to every group of `gs`. */
  ghost predicate Applicable(gs: seq<Group>, step: Group --> Step)
  {
    forall j :: 0 <= j < |gs| ==> step.requires(gs[j])
  }

  /** The summaries the loop has appended after visiting the groups `gs` in order with loop body `step`. */
  function Collect(gs: seq<Group>, step: Group --> Step): seq<Summary>
    requires Applicable(gs, step)
  {
    if gs == [] then []
    else
      var done := Collect(gs[..|gs| - 1], step);
      match step(gs[|gs| - 1])
      case Skip => done
      case Emit(one) => done + [one]
  }

  /** The loop body of `compute_summary` for threshold `minRevenue`. */
  function LoopBody(minRevenue: real): Group --> Step
  {
    (g: Group) requires |g.rows| > 0 => GroupStep(g, minRevenue)
  }

  /** Applying the loop body to a non-empty group is one step of the loop. */
  lemma LoopBodyApplies(minRevenue: real, g: Group)
    requires |g.rows| > 0
    ensures LoopBody(minRevenue).requires(g)
    ensures LoopBody(minRevenue)(g) == GroupStep(g, minRevenue)
  {
  }

  /** `compute_summary(df, min_revenue)`: the list of summaries. */
  function Summarize(records: seq<Record>, minRevenue: real): seq<Summary>
  {
    Collect(GroupBy(records), LoopBody(minRevenue))
  }

  /** One more loop iteration: the result after group `gs[i]` extends the one before it. */
  lemma CollectStep(gs: seq<Group>, step: Group --> Step, i: nat)
    requires Applicable(gs, step)
    requires i < |gs|
    ensures Collect(gs[..i + 1], step) ==
      match step(gs[i])
      case Skip => Collect(gs[..i], step)
      case Emit(one) => Collect(gs[..i], step) + [one]
  {
    assert gs[..i + 1][..i] == gs[..i];
  }

  /** `compute_summary`: the loop over the `(company, group)` pairs, appending or skipping. */
  method ComputeSummary(records: seq<Record>, minRevenue: real) returns (summaries: seq<Summary>)
    ensures summaries == Summarize(records, minRevenue)
  {
    var groups := GroupBy(records);
    summaries := [];
    var i := 0;
    while i < |groups|
      invariant 0 <= i <= |groups|
      invariant summaries == Collect(groups[..i], LoopBody(minRevenue))
    {
      CollectStep(groups, LoopBody(minRevenue), i);
      LoopBodyApplies(minRevenue, groups[i]);
      var company := groups[i].company;
      var group := SortByYear(groups[i].rows);
      SortByYearRows(groups[i].rows);
      if MaxRevenue(group) < minRevenue {
        i := i + 1;
        continue;
      }
      summaries := summaries + [GroupSummary(company, group)];
      i := i + 1;
    }
    assert groups[..i] == groups;
  }

  // ---------------------------------------------------------------------------
  // Properties of one group
  // ---------------------------------------------------------------------------

  /** `latest` is a row of `rows` with the largest year. */
  predicate IsLatest(latest: Record, rows: seq<Record>)
  {
    latest in rows && forall r :: r in rows ==> r.year <= latest.year
  }

  /** Besides `latest`, `rows` holds `prev`, a row with the largest year among the others. */
  predicate IsPrevious(prev: Record, latest: Record, rows: seq<Record>)
  {
    && multiset{prev, latest} <= multiset(rows)
    && forall r :: r in multiset(rows) - multiset{latest} ==> r.year <= prev.year
  }

  /**
   * Whatever order the sort gives rows with equal years, the last row has the
   * largest year of the group, and the second-to-last is another row whose year
   * is the largest among the remaining ones.
   */
  lemma LatestAndPrevious(g: seq<Record>)
    requires |g| > 0
    ensures |SortByYear(g)| == |g|
    ensures IsLatest(Latest(SortByYear(g)), g)
    ensures |g| >= 2 ==> IsPrevious(Previous(SortByYear(g)), Latest(SortByYear(g)), g)
  {
    var s := SortByYear(g);
    SortByYearRows(g);
    LatestOfSorted(s, g);
    if |s| >= 2 {
      PreviousOfSorted(s, g);
    }
  }

  lemma LatestOfSorted(s: seq<Record>, g: seq<Record>)
    requires YearSorted(s) && multiset(s) == multiset(g) && |s| > 0
    ensures Latest(s) in g
    ensures forall r :: r in g ==> r.year <= Latest(s).year
  {
    assert Latest(s) in multiset(s);
    forall r | r in g ensures r.year <= Latest(s).year {
      assert r in multiset(s);
      var i :| 0 <= i < |s| && s[i] == r;
    }
  }

  lemma PreviousOfSorted(s: seq<Record>, g: seq<Record>)
    requires YearSorted(s) && multiset(s) == multiset(g) && |s| >= 2
    ensures multiset{Previous(s), Latest(s)} <= multiset(g)
    ensures forall r :: r in multiset(g) - multiset{Latest(s)} ==> r.year <= Previous(s).year
  {
    LastTwoRows(s, g);
    FrontBelowPrevious(s);
  }

  /** Taking the last row out of `g` leaves the other rows of its rearrangement `s`. */
  lemma LastTwoRows(s: seq<Record>, g: seq<Record>)
    requires multiset(s) == multiset(g) && |s| >= 2
    ensures multiset{Previous(s), Latest(s)} <= multiset(g)
    ensures multiset(g) - multiset{Latest(s)} == multiset(s[..|s| - 1])
  {
    var front := s[..|s| - 1];
    var p, l := Previous(s), Latest(s);
    assert s == front + [l];
    assert multiset(s) == multiset(front) + multiset{l};
    assert front[|s| - 2] == p;
    assert p in multiset(front);
    assert multiset{p, l} == multiset{p} + multiset{l};
  }

  /** In a year-sorted list, no row before the last has a later year than the second-to-last. */
  lemma FrontBelowPrevious(s: seq<Record>)
    requires YearSorted(s) && |s| >= 2
    ensures forall r: Record :: r in multiset(s[..|s| - 1]) ==> r.year <= Previous(s).year
  {
    var front := s[..|s| - 1];
    forall r: Record | r in multiset(front) ensures r.year <= Previous(s).year {
      var i :| 0 <= i < |front| && front[i] == r;
      assert s[i] == r;
    }
  }

  /** The mean profit does not depend on how the sort orders the group. */
  lemma MeanOverAllRows(g: seq<Record>)
    ensures |SortByYear(g)| == |g|
    ensures SumOf(SortByYear(g), Profit) == SumOf(g, Profit)
  {
    SortByYearRows(g);
    SumOfPermutation(SortByYear(g), g, Profit);
  }


  // ---------------------------------------------------------------------------
  // Properties of the loop over the groups
  // ---------------------------------------------------------------------------

  /** Every summary the loop produces is what the loop body emitted for some group. */
  lemma {:induction false} CollectSound(gs: seq<Group>, step: Group --> Step, ss: seq<Summary>)
    requires Applicable(gs, step)
    requires ss == Collect(gs, step)
    ensures forall k :: 0 <= k < |ss| ==> exists j :: 0 <= j < |gs| && step(gs[j]) == Emit(ss[k])
  {
    if gs != [] {
      var n := |gs|;
      var front := gs[..n - 1];
      var done := Collect(front, step);
      CollectSound(front, step, done);
      forall k | 0 <= k < |ss| ensures exists j :: 0 <= j < n && step(gs[j]) == Emit(ss[k]) {
        if k < |done| {
          var j :| 0 <= j < n - 1 && step(front[j]) == Emit(done[k]);
          assert front[j] == gs[j];
        } else {
          assert step(gs[n - 1]) == Emit(ss[k]);
        }
      }
    }
  }

  /** Every summary the loop body emits for a group is in the result. */
  lemma {:induction false} CollectComplete(gs: seq<Group>, step: Group --> Step)
    requires Applicable(gs, step)
    ensures forall j :: 0 <= j < |gs| && step(gs[j]).Emit? ==> step(gs[j]).summary in Collect(gs, step)
  {
    if gs != [] {
      var n := |gs|;
      var front := gs[..n - 1];
      var done := Collect(front, step);
      CollectComplete(front, step);
      forall j | 0 <= j < n && step(gs[j]).Emit? ensures step(gs[j]).summary in Collect(gs, step) {
        if j < n - 1 {
          assert front[j] == gs[j];
          assert step(front[j]).summary in done;
        }
      }
    }
  }

  /** A loop body that emits a group's own key, over ascending keys, gives ascending summaries. */
  lemma {:induction false} CollectAscending(gs: seq<Group>, step: Group --> Step, ss: seq<Summary>)
    requires Applicable(gs, step)
    requires forall j :: 0 <= j < |gs| && step(gs[j]).Emit? ==> step(gs[j]).summary.company == gs[j].company
    requires forall i, j :: 0 <= i < j < |gs| ==> Before(gs[i].company, gs[j].company)
    requires ss == Collect(gs, step)
    ensures forall i, j :: 0 <= i < j < |ss| ==> Before(ss[i].company, ss[j].company)
  {
    if gs != [] {
      var n := |gs|;
      var front := gs[..n - 1];
      var done := Collect(front, step);
      CollectAscending(front, step, done);
      if ss != done {
        CollectSound(front, step, done);
        var one := step(gs[n - 1]).summary;
        assert ss == done + [one];
        forall i | 0 <= i < |done| ensures Before(done[i].company, one.company) {
          var j :| 0 <= j < n - 1 && step(front[j]) == Emit(done[i]);
          assert front[j] == gs[j];
        }
      }
    }
  }

  /** When the loop body emits for every group, there is one summary per group, in group order. */
  lemma {:induction false} CollectKeepAll(gs: seq<Group>, step: Group --> Step)
    requires Applicable(gs, step)
    requires forall j :: 0 <= j < |gs| ==> step(gs[j]).Emit?
    ensures |Collect(gs, step)| == |gs|
    ensures forall k :: 0 <= k < |gs| ==> Collect(gs, step)[k] == step(gs[k]).summary
  {
    if gs != [] {
      var n := |gs|;
      var front := gs[..n - 1];
      assert forall j :: 0 <= j < n - 1 ==> front[j] == gs[j];
      CollectKeepAll(front, step);
    }
  }

  /** Some group with key `c` is not skipped by `step`. */
  ghost predicate KeptGroup(gs: seq<Group>, step: Group --> Step, c: string)
  {
    exists j :: 0 <= j < |gs| && gs[j].company == c && step.requires(gs[j]) && step(gs[j]).Emit?
  }

  /** Company `c` has a summary in `ss`. */
  predicate Listed(ss: seq<Summary>, c: string)
  {
    exists k :: 0 <= k < |ss| && ss[k].company == c
  }

  /** The loop lists exactly the keys of the groups it did not skip. */
  lemma CollectListed(gs: seq<Group>, step: Group --> Step)
    requires Applicable(gs, step)
    requires forall j :: 0 <= j < |gs| && step(gs[j]).Emit? ==> step(gs[j]).summary.company == gs[j].company
    ensures forall c :: Listed(Collect(gs, step), c) <==> KeptGroup(gs, step, c)
  {
    var ss := Collect(gs, step);
    CollectSound(gs, step, ss);
    CollectComplete(gs, step);
    forall c ensures Listed(ss, c) <==> KeptGroup(gs, step, c) {
      if Listed(ss, c) {
        var k :| 0 <= k < |ss| && ss[k].company == c;
        var j :| 0 <= j < |gs| && step(gs[j]) == Emit(ss[k]);
      }
      if KeptGroup(gs, step, c) {
        var j :| 0 <= j < |gs| && gs[j].company == c && step.requires(gs[j]) && step(gs[j]).Emit?;
        var one := step(gs[j]).summary;
        assert one in ss;
        var k :| 0 <= k < |ss| && ss[k] == one;
      }
    }
  }

  /** `step` applies to every non-empty group and skips it exactly when no row reaches the threshold. */
  ghost predicate SkipsBelow(step: Group --> Step, minRevenue: real)
  {
    forall g: Group {:trigger step.requires(g)} :: |g.rows| > 0 ==>
      && step.requires(g)
      && (step(g).Skip? <==> forall r :: r in g.rows ==> r.revenue < minRevenue)
  }

  /** What `step` emits for a non-empty group is the summary of the group sorted by year. */
  ghost predicate EmitsSummary(step: Group --> Step)
  {
    forall g: Group {:trigger step.requires(g)} :: |g.rows| > 0 ==>
      && step.requires(g)
      && (step(g).Emit? ==>
            && step(g).summary == GroupSummary(g.company, SortByYear(g.rows))
            && step(g).summary.company == g.company)
  }

  /** The loop body of `compute_summary` skips and emits as the two predicates above say. */
  lemma LoopBodyBehaves(minRevenue: real)
    ensures SkipsBelow(LoopBody(minRevenue), minRevenue)
    ensures EmitsSummary(LoopBody(minRevenue))
  {
    forall g: Group | |g.rows| > 0
      ensures LoopBody(minRevenue).requires(g)
      ensures LoopBody(minRevenue)(g).Skip? <==> forall r :: r in g.rows ==> r.revenue < minRevenue
    {
      LoopBodyApplies(minRevenue, g);
    }
  }

  // ---------------------------------------------------------------------------
  // Properties of compute_summary
  // ---------------------------------------------------------------------------

  /** Some row of company `c` has revenue at least `minRevenue`. */
  predicate Qualifies(records: seq<Record>, c: string, minRevenue: real)
  {
    exists r :: r in records && r.company == c && r.revenue >= minRevenue
  }

  /** The loop body skips no group of company `c` exactly when some row of `c` reaches the threshold. */
  lemma KeptGroupIff(records: seq<Record>, step: Group --> Step, minRevenue: real, c: string)
    requires SkipsBelow(step, minRevenue)
    ensures KeptGroup(GroupBy(records), step, c) <==> Qualifies(records, c, minRevenue)
  {
    var gs := GroupBy(records);
    if KeptGroup(gs, step, c) {
      var j :| 0 <= j < |gs| && gs[j].company == c && step.requires(gs[j]) && step(gs[j]).Emit?;
      var r :| r in gs[j].rows && r.revenue >= minRevenue;
    }
    if Qualifies(records, c, minRevenue) {
      var r :| r in records && r.company == c && r.revenue >= minRevenue;
      assert Appears(records, c);
      var j :| 0 <= j < |gs| && gs[j].company == c;
      assert r in gs[j].rows;
      assert step.requires(gs[j]);
    }
  }

  /** The loop body applies to every group and emits the group's own key. */
  lemma EmitsOwnKey(records: seq<Record>, step: Group --> Step)
    requires EmitsSummary(step)
    ensures Applicable(GroupBy(records), step)
    ensures var gs := GroupBy(records);
      forall j :: 0 <= j < |gs| && step(gs[j]).Emit? ==> step(gs[j]).summary.company == gs[j].company
  {
    var gs := GroupBy(records);
    assert forall j :: 0 <= j < |gs| ==> step.requires(gs[j]);
  }

  /**
   * The output lists companies in ascending order, at most once each, and a
   * company is listed exactly when some row of it reaches the threshold: the
   * filter drops whole companies, never single rows, and a zero revenue in
   * one company does not affect any other.
   */
  lemma SummarizeCompanies(records: seq<Record>, minRevenue: real)
    ensures var ss := Summarize(records, minRevenue);
      forall i, j :: 0 <= i < j < |ss| ==> Before(ss[i].company, ss[j].company)
    ensures forall c :: Listed(Summarize(records, minRevenue), c) <==> Qualifies(records, c, minRevenue)
  {
    var gs := GroupBy(records);
    var step := LoopBody(minRevenue);
    LoopBodyBehaves(minRevenue);
    EmitsOwnKey(records, step);
    CollectAscending(gs, step, Summarize(records, minRevenue));
    CollectListed(gs, step);
    forall c ensures Listed(Summarize(records, minRevenue), c) <==> Qualifies(records, c, minRevenue) {
      KeptGroupIff(records, step, minRevenue, c);
    }
  }

  /**
   * A threshold that every company reaches with some row (such as the default
   * 0 when no revenue is negative) drops no company.
   */
  lemma NoCompanyDropped(records: seq<Record>, minRevenue: real)
    requires forall c :: Appears(records, c) ==> Qualifies(records, c, minRevenue)
    ensures |Summarize(records, minRevenue)| == |GroupBy(records)|
    ensures forall c :: Listed(Summarize(records, minRevenue), c) <==> Appears(records, c)
  {
    var gs := GroupBy(records);
    var step := LoopBody(minRevenue);
    LoopBodyBehaves(minRevenue);
    AllGroupsKept(records, step, minRevenue);
    CollectKeepAll(gs, step);
    SummarizeCompanies(records, minRevenue);
  }

  /** When every company qualifies, the loop body skips no group. */
  lemma AllGroupsKept(records: seq<Record>, step: Group --> Step, minRevenue: real)
    requires SkipsBelow(step, minRevenue)
    requires forall c :: Appears(records, c) ==> Qualifies(records, c, minRevenue)
    ensures Applicable(GroupBy(records), step)
    ensures forall j :: 0 <= j < |GroupBy(records)| ==> step(GroupBy(records)[j]).Emit?
  {
    var gs := GroupBy(records);
    assert forall j :: 0 <= j < |gs| ==> step.requires(gs[j]);
    forall j | 0 <= j < |gs| ensures step(gs[j]).Emit? {
      var c := gs[j].company;
      assert HasGroup(gs, c);
      var r :| r in records && r.company == c && r.revenue >= minRevenue;
      assert r in gs[j].rows;
    }
  }

  /** The fields of the summary computed from a year-sorted group `s`. */
  lemma GroupSummaryValues(company: string, s: seq<Record>)
    requires |s| > 0
    ensures var x := GroupSummary(company, s);
      && x.avgProfit == Round2(SumOf(s, Profit) / |s| as real)
      && x.profitMargin == RoundRatio(MarginPercent(Latest(s).profit, Latest(s).revenue))
      && (|s| >= 2 ==> x.yoyGrowth == Percent(RoundRatio(GrowthPercent(Previous(s).revenue, Latest(s).revenue))))
  {
  }

  /**
   * The metrics of the summary of a group, in terms of that company's rows,
   * whatever order the year sort gives rows of equal year.
   */
  lemma EmittedSummary(g: Group)
    requires |g.rows| > 0
    ensures var rows, x := g.rows, GroupSummary(g.company, SortByYear(g.rows));
      && x.avgProfit == Round2(SumOf(rows, Profit) / |rows| as real)
      && (x.yoyGrowth.NotApplicable? <==> |rows| == 1)
      && exists latest ::
        && IsLatest(latest, rows)
        && x.profitMargin == RoundRatio(MarginPercent(latest.profit, latest.revenue))
        && (|rows| >= 2 ==> exists prev ::
              && IsPrevious(prev, latest, rows)
              && x.yoyGrowth == Percent(RoundRatio(GrowthPercent(prev.revenue, latest.revenue))))
  {
    var rows := g.rows;
    var s := SortByYear(rows);
    MeanOverAllRows(rows);
    LatestAndPrevious(rows);
    GroupSummaryValues(g.company, s);
    var latest := Latest(s);
    if |rows| >= 2 {
      var prev := Previous(s);
      assert IsPrevious(prev, latest, rows);
    }
  }

  /**
   * Each summary holds the metrics of its company: the mean profit over all of
   * its rows, "N/A" growth exactly for a single row, otherwise the growth from
   * a second-latest to a latest row by year, and the margin of a latest row;
   * a zero denominator gives an infinity or NaN there, as numpy does.
   */
  lemma CompanySummary(records: seq<Record>, minRevenue: real, k: nat)
    requires k < |Summarize(records, minRevenue)|
    ensures var x := Summarize(records, minRevenue)[k];
      var rows := Rows(records, x.company);
      && |rows| > 0
      && x.avgProfit == Round2(SumOf(rows, Profit) / |rows| as real)
      && (x.yoyGrowth.NotApplicable? <==> |rows| == 1)
      && exists latest ::
        && IsLatest(latest, rows)
        && x.profitMargin == RoundRatio(MarginPercent(latest.profit, latest.revenue))
        && (|rows| >= 2 ==> exists prev ::
              && IsPrevious(prev, latest, rows)
              && x.yoyGrowth == Percent(RoundRatio(GrowthPercent(prev.revenue, latest.revenue))))
  {
    var gs := GroupBy(records);
    var step := LoopBody(minRevenue);
    var ss := Summarize(records, minRevenue);
    CollectSound(gs, step, ss);
    var j :| 0 <= j < |gs| && step(gs[j]) == Emit(ss[k]);
    var g := gs[j];
    LoopBodyApplies(minRevenue, g);
    assert ss[k] == GroupSummary(g.company, SortByYear(g.rows));
    assert g.rows == Rows(records, ss[k].company);
    EmittedSummary(g);
  }

  // ---------------------------------------------------------------------------
  // Worked examples
  // ---------------------------------------------------------------------------

  /** Grouping the example rows gives company A with both of its rows, then company B. */
  lemma ExampleGroups(a1: Record, a2: Record, b1: Record)
    requires a1 == Record("A", 2022, 100.0, 10.0) && a2 == Record("A", 2023, 150.0, 20.0)
    requires b1 == Record("B", 2022, 50.0, 5.0)
    ensures GroupBy([a1, a2, b1]) == [Group("A", [a1, a2]), Group("B", [b1])]
  {
    var records := [a1, a2, b1];
    assert Before("A", "B");
    assert Companies([b1]) == ["B"];
    assert Companies([a2, b1]) == ["A", "B"];
    assert Companies(records) == ["A", "B"];
    assert records[1..] == [a2, b1] && [a2, b1][1..] == [b1] && [b1][1..] == [];
    assert Rows([b1], "A") == [] && Rows([a2, b1], "A") == [a2];
    assert Rows(records, "A") == [a1, a2];
    assert Rows([b1], "B") == [b1];
    assert Rows([a2, b1], "B") == [] + Rows([b1], "B");
    assert Rows(records, "B") == [b1];
  }

  /** The loop body emits the expected summary for each example group. */
  lemma ExampleSteps(a1: Record, a2: Record, b1: Record)
    requires a1 == Record("A", 2022, 100.0, 10.0) && a2 == Record("A", 2023, 150.0, 20.0)
    requires b1 == Record("B", 2022, 50.0, 5.0)
    ensures GroupStep(Group("A", [a1, a2]), 0.0) == Emit(Summary("A", 15.0, Percent(Finite(50.0)), Finite(13.33)))
    ensures GroupStep(Group("B", [b1]), 0.0) == Emit(Summary("B", 5.0, NotApplicable, Finite(10.0)))
  {
    assert [a1, a2][1..] == [a2];
    assert SortByYear([a2]) == [a2];
    assert SortByYear([a1, a2]) == [a1, a2];
    assert SortByYear([b1]) == [b1];
    assert SumOf([a2], Profit) == 20.0;
    assert SumOf([a1, a2], Profit) == 30.0;
    assert SumOf([b1], Profit) == 5.0;
    assert Round2(15.0) == 15.0 && Round2(5.0) == 5.0;
    assert Round2(50.0) == 50.0 && Round2(10.0) == 10.0;
    assert Round2(20.0 / 150.0 * 100.0) == 13.33;
  }

  /** A loop over two groups that both emit lists the two summaries in order. */
  lemma CollectTwo(gs: seq<Group>, step: Group --> Step, x: Summary, y: Summary)
    requires |gs| == 2 && Applicable(gs, step)
    requires step(gs[0]) == Emit(x) && step(gs[1]) == Emit(y)
    ensures Collect(gs, step) == [x, y]
  {
    assert gs[..0] == [] && gs[..2] == gs;
    CollectStep(gs, step, 0);
    assert [] + [x] == [x] && [x] + [y] == [x, y];
    CollectStep(gs, step, 1);
  }

  /**
   * Two years of company A and one of company B, threshold 0: A has mean
   * profit 15, growth 50% and margin 13.33%; B has mean profit 5, growth
   * "N/A" and margin 10%.
   */
  lemma TwoCompaniesExample(a1: Record, a2: Record, b1: Record)
    requires a1 == Record("A", 2022, 100.0, 10.0) && a2 == Record("A", 2023, 150.0, 20.0)
    requires b1 == Record("B", 2022, 50.0, 5.0)
    ensures Summarize([a1, a2, b1], 0.0)
      == [Summary("A", 15.0, Percent(Finite(50.0)), Finite(13.33)), Summary("B", 5.0, NotApplicable, Finite(10.0))]
  {
    var ga, gb := Group("A", [a1, a2]), Group("B", [b1]);
    ExampleGroups(a1, a2, b1);
    ExampleSteps(a1, a2, b1);
    LoopBodyApplies(0.0, ga);
    LoopBodyApplies(0.0, gb);
    CollectTwo([ga, gb], LoopBody(0.0),
      Summary("A", 15.0, Percent(Finite(50.0)), Finite(13.33)), Summary("B", 5.0, NotApplicable, Finite(10.0)));
  }

  /** Grouping one row of A and one row of B gives one group each. */
  lemma ZeroRevenueGroups(a: Record, b: Record)
    requires a == Record("A", 2022, 0.0, 5.0) && b == Record("B", 2022, 50.0, 5.0)
    ensures GroupBy([a, b]) == [Group("A", [a]), Group("B", [b])]
  {
    assert Before("A", "B");
    assert [a, b][1..] == [b] && [b][1..] == [];
    assert Companies([b]) == ["B"];
    assert Companies([a, b]) == ["A", "B"];
    assert Rows([b], "A") == [] + Rows([], "A");
    assert Rows([a, b], "A") == [a] + Rows([b], "A");
    assert Rows([b], "B") == [b] + Rows([], "B");
    assert Rows([a, b], "B") == [] + Rows([b], "B");
    assert Rows([a, b], "B") == [b];
    var gs := GroupsOf([a, b], ["A", "B"]);
    assert gs[0] == Group("A", [a]) && gs[1] == Group("B", [b]);
  }

  /** The loop body emits an infinite margin for A and a finite one for B. */
  lemma ZeroRevenueSteps(a: Record, b: Record)
    requires a == Record("A", 2022, 0.0, 5.0) && b == Record("B", 2022, 50.0, 5.0)
    ensures GroupStep(Group("A", [a]), 0.0) == Emit(Summary("A", 5.0, NotApplicable, PositiveInfinity))
    ensures GroupStep(Group("B", [b]), 0.0) == Emit(Summary("B", 5.0, NotApplicable, Finite(10.0)))
  {
    assert [a][1..] == [] && [b][1..] == [];
    assert SortByYear([a]) == [a] && SortByYear([b]) == [b];
    assert SumOf([a], Profit) == Profit(a) + SumOf([], Profit);
    assert SumOf([b], Profit) == Profit(b) + SumOf([], Profit);
    assert Round2(5.0) == 5.0 && Round2(10.0) == 10.0;
  }

  /**
   * A company whose only row has zero revenue gets an infinite margin, and
   * the company after it is still summarised.
   */
  lemma ZeroRevenueExample(a: Record, b: Record)
    requires a == Record("A", 2022, 0.0, 5.0) && b == Record("B", 2022, 50.0, 5.0)
    ensures Summarize([a, b], 0.0)
      == [Summary("A", 5.0, NotApplicable, PositiveInfinity), Summary("B", 5.0, NotApplicable, Finite(10.0))]
  {
    var ga, gb := Group("A", [a]), Group("B", [b]);
    ZeroRevenueGroups(a, b);
    ZeroRevenueSteps(a, b);
    LoopBodyApplies(0.0, ga);
    LoopBodyApplies(0.0, gb);
    CollectTwo([ga, gb], LoopBody(0.0),
      Summary("A", 5.0, NotApplicable, PositiveInfinity), Summary("B", 5.0, NotApplicable, Finite(10.0)));
  }
}
