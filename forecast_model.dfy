/**
 * The shaping and output steps of run_model_and_forecast: the historical and new rows
 * become one daily series of mean values; its last seven days are compared with the
 * model's in-sample predictions and followed by seven forecast days.
 *
 * An observation is a row's 'date de fin', as a day number (see Calendar), with its
 * 'valeur', missing when NaN: every end date is taken to be midnight of its day. The ARIMA model itself is not modelled: its seven in-sample
 * predictions and its seven forecast values are inputs, and so are the square root and
 * the lag-1 autocorrelation the metrics use.
 */
module ForecastModel {
  import opened Wrappers
  import opened Calendar
  import GazDataProcessor

  /** One row of the series: a day and its value, missing when NaN. */
  datatype Observation = Observation(day: int, value: Option<real>)

  // ---------------------------------------------------------------- sorting

  predicate SortedByDay(s: seq<Observation>)
  {
    forall i, j :: 0 <= i < j < |s| ==> s[i].day <= s[j].day
  }

  /** Places `o` before the first observation of a later day. */
  function InsertByDay(o: Observation, s: seq<Observation>): seq<Observation>
  {
    if s == [] || o.day <= s[0].day then [o] + s
    else [s[0]] + InsertByDay(o, s[1..])
  }

  /** Inserting adds `o` and loses nothing. */
  lemma {:induction false} InsertByDayPermutes(o: Observation, s: seq<Observation>)
    ensures multiset(InsertByDay(o, s)) == multiset(s) + multiset{o}
  {
    if s != [] && o.day > s[0].day {
      InsertByDayPermutes(o, s[1..]);
      assert s == [s[0]] + s[1..];
    }
  }

  /** Inserting keeps every day at or above a common lower bound. */
  lemma {:induction false} InsertByDayAbove(o: Observation, s: seq<Observation>, low: int)
    requires low <= o.day && forall x :: x in s ==> low <= x.day
    ensures forall x :: x in InsertByDay(o, s) ==> low <= x.day
  {
    if s != [] && o.day > s[0].day {
      var tail := s[1..];
      assert forall x :: x in tail ==> x in s;
      InsertByDayAbove(o, tail, low);
      var rest := InsertByDay(o, tail);
      var r := [s[0]] + rest;
      assert InsertByDay(o, s) == r;
      assert s[0] in s;
    }
  }

  lemma SortedTail(s: seq<Observation>)
    requires SortedByDay(s) && s != []
    ensures SortedByDay(s[1..]) && forall x :: x in s[1..] ==> s[0].day <= x.day
  {
    forall x | x in s[1..] ensures s[0].day <= x.day {
      var k :| 0 <= k < |s[1..]| && s[1..][k] == x;
      assert s[k + 1] == x;
    }
  }

  lemma {:induction false} InsertByDaySorted(o: Observation, s: seq<Observation>)
    requires SortedByDay(s)
    ensures SortedByDay(InsertByDay(o, s))
  {
    if s != [] && o.day > s[0].day {
      var tail := s[1..];
      SortedTail(s);
      var rest := InsertByDay(o, tail);
      InsertByDaySorted(o, tail);
      InsertByDayAbove(o, tail, s[0].day);
      var r := [s[0]] + rest;
      assert InsertByDay(o, s) == r;
      forall i, j | 0 <= i < j < |r| ensures r[i].day <= r[j].day {
        assert r[j] == rest[j - 1] && r[j] in rest;
        if i > 0 {
          assert r[i] == rest[i - 1];
        }
      }
    }
  }

  /**
   * `df.sort_values('date de fin')` over the concatenated rows: ascending days, the same
   * rows. pandas' default sort is not stable; this is one of the orders it may produce,
   * and CollapseIgnoresOrder shows that the shaped series does not depend on it.
   */
  function SortByDay(obs: seq<Observation>): (s: seq<Observation>)
    ensures SortedByDay(s)
    ensures multiset(s) == multiset(obs)
  {
    if obs == [] then []
    else
      assert obs == [obs[0]] + obs[1..];
      InsertByDaySorted(obs[0], SortByDay(obs[1..]));
      InsertByDayPermutes(obs[0], SortByDay(obs[1..]));
      InsertByDay(obs[0], SortByDay(obs[1..]))
  }

  // ---------------------------------------------------------------- means of a day

  /** The number an observation contributes to day `d`: none unless it is on `d` and not NaN. */
  function NumberOn(o: Observation, d: int): seq<real>
  {
    if o.day == d && o.value.Some? then [o.value.value] else []
  }

  /** The numbers (values that are not NaN) observed on day `d`, in order. */
  function NumbersOn(s: seq<Observation>, d: int): seq<real>
  {
    if s == [] then [] else NumberOn(s[0], d) + NumbersOn(s[1..], d)
  }

  lemma NumbersOnCons(o: Observation, s: seq<Observation>, d: int)
    ensures NumbersOn([o] + s, d) == NumberOn(o, d) + NumbersOn(s, d)
  {
    assert ([o] + s)[1..] == s;
  }

  /** Inserting `o` puts it before every observation of its own day, so each day's numbers keep their order. */
  lemma {:induction false} NumbersOnInsert(o: Observation, s: seq<Observation>, d: int)
    ensures NumbersOn(InsertByDay(o, s), d) == NumbersOn([o] + s, d)
  {
    if s != [] && o.day > s[0].day {
      var tail := s[1..];
      var rest := InsertByDay(o, tail);
      var a, b := NumberOn(s[0], d), NumberOn(o, d);
      calc {
        NumbersOn(InsertByDay(o, s), d);
        { assert InsertByDay(o, s) == [s[0]] + rest; NumbersOnCons(s[0], rest, d); }
        a + NumbersOn(rest, d);
        { NumbersOnInsert(o, tail, d); NumbersOnCons(o, tail, d); }
        a + (b + NumbersOn(tail, d));
        { assert a == [] || b == []; assert a + b == b + a; }
        b + (a + NumbersOn(tail, d));
        { assert s == [s[0]] + tail; NumbersOnCons(s[0], tail, d); }
        b + NumbersOn(s, d);
        { NumbersOnCons(o, s, d); }
        NumbersOn([o] + s, d);
      }
    }
  }

  /** The sort is stable: each day's numbers stay in row order. */
  lemma {:induction false} NumbersOnSort(obs: seq<Observation>, d: int)
    ensures NumbersOn(SortByDay(obs), d) == NumbersOn(obs, d)
  {
    if obs != [] {
      var o, tail := obs[0], obs[1..];
      var sortedTail := SortByDay(tail);
      assert SortByDay(obs) == InsertByDay(o, sortedTail);
      NumbersOnSort(tail, d);
      NumbersOnInsert(o, sortedTail, d);
      NumbersOnCons(o, sortedTail, d);
      assert obs == [o] + tail;
      NumbersOnCons(o, tail, d);
    }
  }

  lemma {:induction false} SumAppend(xs: seq<real>, ys: seq<real>)
    ensures GazDataProcessor.Sum(xs + ys) == GazDataProcessor.Sum(xs) + GazDataProcessor.Sum(ys)
  {
    if xs == [] {
      assert xs + ys == ys;
    } else {
      assert (xs + ys)[1..] == xs[1..] + ys;
      SumAppend(xs[1..], ys);
    }
  }

  lemma {:induction false} NumbersOnAppend(a: seq<Observation>, b: seq<Observation>, d: int)
    ensures NumbersOn(a + b, d) == NumbersOn(a, d) + NumbersOn(b, d)
  {
    if a == [] {
      assert a + b == b;
    } else {
      assert (a + b)[1..] == a[1..] + b;
      NumbersOnAppend(a[1..], b, d);
    }
  }

  lemma NumbersOnSplit(t: seq<Observation>, j: nat, d: int)
    requires j < |t|
    ensures NumbersOn(t, d) == NumbersOn(t[..j], d) + NumberOn(t[j], d) + NumbersOn(t[j + 1..], d)
  {
    assert t == t[..j] + ([t[j]] + t[j + 1..]);
    NumbersOnAppend(t[..j], [t[j]] + t[j + 1..], d);
    NumbersOnCons(t[j], t[j + 1..], d);
  }

  /** Taking the first element from one arrangement and a matching one from the other leaves two arrangements of the same rows. */
  lemma RemoveMatching<T>(s: seq<T>, t: seq<T>, j: nat)
    requires multiset(s) == multiset(t) && s != [] && j < |t| && t[j] == s[0]
    ensures multiset(s[1..]) == multiset(t[..j] + t[j + 1..])
  {
    var a, b := multiset(s[1..]), multiset(t[..j] + t[j + 1..]);
    var before, after := multiset(t[..j]), multiset(t[j + 1..]);
    assert s == [s[0]] + s[1..];
    assert multiset(s) == multiset{s[0]} + a;
    assert t == t[..j] + [t[j]] + t[j + 1..];
    assert multiset(t) == before + multiset{t[j]} + after;
    assert b == before + after;
    forall x ensures a[x] == b[x] {
      assert multiset(s)[x] == multiset{s[0]}[x] + a[x];
      assert multiset(t)[x] == before[x] + multiset{s[0]}[x] + after[x];
    }
  }

  /**
   * Rearranging the rows changes neither how many numbers a day has nor their sum, so
   * the day's mean does not depend on the row order.
   */
  lemma {:induction false} NumbersOnPermutation(s: seq<Observation>, t: seq<Observation>, d: int)
    requires multiset(s) == multiset(t)
    ensures |NumbersOn(s, d)| == |NumbersOn(t, d)|
    ensures GazDataProcessor.Sum(NumbersOn(s, d)) == GazDataProcessor.Sum(NumbersOn(t, d))
    ensures GazDataProcessor.Mean(NumbersOn(s, d)) == GazDataProcessor.Mean(NumbersOn(t, d))
    decreases |s|
  {
    if s == [] {
      assert |multiset(t)| == 0;
    } else {
      var o := s[0];
      assert o in multiset(t);
      var j :| 0 <= j < |t| && t[j] == o;
      var before, after := t[..j], t[j + 1..];
      var x, y, z := NumbersOn(before, d), NumberOn(o, d), NumbersOn(after, d);
      RemoveMatching(s, t, j);
      NumbersOnPermutation(s[1..], before + after, d);
      assert NumbersOn(s, d) == y + NumbersOn(s[1..], d);
      NumbersOnAppend(before, after, d);
      NumbersOnSplit(t, j, d);
      SumAppend(y, NumbersOn(s[1..], d));
      SumAppend(x, z);
      SumAppend(x + y, z);
      SumAppend(x, y);
    }
  }

  // ---------------------------------------------------------------- one entry per day

  predicate Observed(s: seq<Observation>, d: int)
  {
    exists i :: 0 <= i < |s| && s[i].day == d
  }

  predicate Increasing(days: seq<int>)
  {
    forall i, j :: 0 <= i < j < |days| ==> days[i] < days[j]
  }

  lemma ObservedTail(s: seq<Observation>)
    requires SortedByDay(s) && s != []
    ensures SortedByDay(s[1..])
    ensures forall d :: Observed(s, d) <==> d == s[0].day || Observed(s[1..], d)
    ensures forall d :: Observed(s[1..], d) ==> s[0].day <= d
  {
    forall d | Observed(s, d) && d != s[0].day ensures Observed(s[1..], d) {
      var i :| 0 <= i < |s| && s[i].day == d;
      assert s[1..][i - 1] == s[i];
    }
    forall d | Observed(s[1..], d) ensures Observed(s, d) && s[0].day <= d {
      var i :| 0 <= i < |s[1..]| && s[1..][i].day == d;
      assert s[i + 1].day == d;
    }
  }

  /** The distinct days of day-sorted observations, ascending. */
  function DaysOf(s: seq<Observation>): (days: seq<int>)
    requires SortedByDay(s)
    ensures Increasing(days)
    ensures forall d :: d in days <==> Observed(s, d)
    ensures s != [] ==> days != [] && days[0] == s[0].day
  {
    if s == [] then []
    else
      ObservedTail(s);
      var rest := DaysOf(s[1..]);
      if rest != [] && rest[0] == s[0].day then rest
      else
        assert forall d :: d in rest ==> s[0].day < d by {
          if rest != [] {
            IncreasingTail(rest);
          }
        }
        [s[0].day] + rest
  }

  /** The days of a series, in order. */
  predicate IncreasingDays(c: seq<Observation>)
  {
    forall i, j :: 0 <= i < j < |c| ==> c[i].day < c[j].day
  }

  /**
   * `ts.groupby(ts.index).mean()` on the sorted rows: one entry per observed day,
   * ascending, holding the mean of that day's numbers, NaN when it has none.
   */
  function Collapse(s: seq<Observation>): (c: seq<Observation>)
    requires SortedByDay(s)
  {
    var days := DaysOf(s);
    seq(|days|, i requires 0 <= i < |days| => Observation(days[i], GazDataProcessor.Mean(NumbersOn(s, days[i]))))
  }

  /**
   * After the collapse every observed day appears exactly once, in strictly increasing
   * order, with the mean of the numbers observed on it.
   */
  lemma CollapseByDay(s: seq<Observation>)
    requires SortedByDay(s)
    ensures var c := Collapse(s);
      && IncreasingDays(c)
      && (forall d :: Observed(c, d) <==> Observed(s, d))
      && (forall i :: 0 <= i < |c| ==> c[i].value == GazDataProcessor.Mean(NumbersOn(s, c[i].day)))
      && (s != [] ==> c != [] && c[0].day == s[0].day)
  {
    var c := Collapse(s);
    var days := DaysOf(s);
    forall d | Observed(c, d) ensures Observed(s, d) {
      var i :| 0 <= i < |c| && c[i].day == d;
      assert days[i] in days;
    }
    forall d | Observed(s, d) ensures Observed(c, d) {
      assert d in days;
      var i :| 0 <= i < |days| && days[i] == d;
      assert c[i].day == d;
    }
  }

  // ---------------------------------------------------------------- one entry per calendar day

  /** The value a series holds for day `d`; missing when it has no entry for that day. */
  function ValueOn(c: seq<Observation>, d: int): (v: Option<real>)
    ensures !Observed(c, d) ==> v.None?
  {
    if c == [] then None
    else if c[0].day == d then c[0].value
    else
      assert !Observed(c, d) ==> !Observed(c[1..], d) by {
        if Observed(c[1..], d) {
          var i :| 0 <= i < |c[1..]| && c[1..][i].day == d;
          assert c[i + 1].day == d;
        }
      }
      ValueOn(c[1..], d)
  }

  lemma {:induction false} ValueOnEntry(c: seq<Observation>, i: nat)
    requires IncreasingDays(c) && i < |c|
    ensures ValueOn(c, c[i].day) == c[i].value
  {
    if i > 0 {
      ValueOnEntry(c[1..], i - 1);
    }
  }

  /** `ts.asfreq('D')`: every day from the first to the last, NaN where the series has no entry. */
  function Regularize(c: seq<Observation>): (r: seq<Observation>)
    requires IncreasingDays(c)
  {
    if c == [] then []
    else
      var first := c[0].day;
      var last := c[|c| - 1].day;
      seq(last - first + 1, i requires 0 <= i <= last - first => Observation(first + i, ValueOn(c, first + i)))
  }

  /**
   * The regularised series runs day by day from the first to the last day of the series,
   * so its length is last - first + 1; each day keeps its value, and days the series
   * lacks are missing.
   */
  lemma RegularizeDaily(c: seq<Observation>)
    requires IncreasingDays(c)
    ensures var r := Regularize(c);
      && (r == [] <==> c == [])
      && (c != [] ==> |r| == c[|c| - 1].day - c[0].day + 1 && r[0].day == c[0].day && r[|r| - 1].day == c[|c| - 1].day)
      && (forall i :: 0 <= i < |r| ==> r[i].day == r[0].day + i)
      && (forall i :: 0 <= i < |c| ==> Observed(r, c[i].day))
      && (forall i :: 0 <= i < |r| ==> r[i].value == ValueOn(c, r[i].day))
      && (forall i :: 0 <= i < |r| && !Observed(c, r[i].day) ==> r[i].value.None?)
  {
    var r := Regularize(c);
    if c != [] {
      forall i | 0 <= i < |c| ensures Observed(r, c[i].day) {
        assert c[0].day <= c[i].day <= c[|c| - 1].day;
        assert r[c[i].day - c[0].day].day == c[i].day;
      }
    }
  }

  /** Every entry of the regularised series that the series had keeps its value. */
  lemma RegularizeKeepsValues(c: seq<Observation>, i: nat)
    requires IncreasingDays(c) && i < |c|
    ensures var r := Regularize(c);
      exists j :: 0 <= j < |r| && r[j] == c[i]
  {
    var r := Regularize(c);
    assert c[0].day <= c[i].day <= c[|c| - 1].day;
    var j := c[i].day - c[0].day;
    ValueOnEntry(c, i);
    assert r[j] == c[i];
  }

  // ---------------------------------------------------------------- any day-sorted order

  lemma ObservedPermutation(s: seq<Observation>, t: seq<Observation>, d: int)
    requires multiset(s) == multiset(t)
    ensures Observed(s, d) <==> Observed(t, d)
  {
    if Observed(s, d) {
      var i :| 0 <= i < |s| && s[i].day == d;
      assert s[i] in multiset(t);
      var j :| 0 <= j < |t| && t[j] == s[i];
    }
    if Observed(t, d) {
      var j :| 0 <= j < |t| && t[j].day == d;
      assert t[j] in multiset(s);
      var i :| 0 <= i < |s| && s[i] == t[j];
    }
  }

  /** The tail of an increasing sequence holds every element but the first. */
  lemma IncreasingTail(a: seq<int>)
    requires Increasing(a) && a != []
    ensures Increasing(a[1..])
    ensures forall d :: d in a[1..] <==> d in a && d != a[0]
    ensures forall d :: d in a ==> a[0] <= d
  {
    forall d | d in a && d != a[0] ensures d in a[1..] {
      var i :| 0 <= i < |a| && a[i] == d;
      assert a[1..][i - 1] == d;
    }
    forall d | d in a[1..] ensures d != a[0] {
      var i :| 0 <= i < |a[1..]| && a[1..][i] == d;
      assert a[i + 1] == d;
    }
  }

  lemma FirstIsMember(s: seq<int>)
    ensures s != [] ==> s[0] in s
  {
  }

  /** Two increasing sequences with the same elements are the same sequence. */
  lemma {:induction false} IncreasingUnique(a: seq<int>, b: seq<int>)
    requires Increasing(a) && Increasing(b)
    requires forall d :: d in a <==> d in b
    ensures a == b
  {
    if a != [] && b != [] {
      IncreasingTail(a);
      IncreasingTail(b);
      assert a[0] in b && b[0] in a;
      IncreasingUnique(a[1..], b[1..]);
      assert a == [a[0]] + a[1..] && b == [b[0]] + b[1..];
    } else {
      FirstIsMember(a);
      FirstIsMember(b);
    }
  }

  /**
   * pandas may order rows of the same day either way; every day-sorted arrangement of the
   * rows collapses to the same series.
   */
  lemma CollapseIgnoresOrder(p: seq<Observation>, q: seq<Observation>)
    requires SortedByDay(p) && SortedByDay(q) && multiset(p) == multiset(q)
    ensures Collapse(p) == Collapse(q)
  {
    var dp, dq := DaysOf(p), DaysOf(q);
    forall d ensures d in dp <==> d in dq {
      ObservedPermutation(p, q, d);
    }
    IncreasingUnique(dp, dq);
    forall i | 0 <= i < |dp| ensures Collapse(p)[i] == Collapse(q)[i] {
      NumbersOnPermutation(p, q, dp[i]);
    }
  }

  // ---------------------------------------------------------------- the daily series

  /**
   * Lines 15-33: concatenate the historical and the new rows, sort them by day, collapse
   * each day to its mean and fill in the missing days.
   */
  function Series(historical: seq<Observation>, newDay: seq<Observation>): seq<Observation>
  {
    var sorted := SortByDay(historical + newDay);
    CollapseByDay(sorted);
    Regularize(Collapse(sorted))
  }

  /** The rows of both inputs, in non-decreasing day order. */
  lemma SortedRows(historical: seq<Observation>, newDay: seq<Observation>)
    ensures var sorted := SortByDay(historical + newDay);
      && SortedByDay(sorted)
      && multiset(sorted) == multiset(historical) + multiset(newDay)
  {
  }

  /** The series is the daily regularisation of the collapsed, sorted rows. */
  lemma SeriesSteps(historical: seq<Observation>, newDay: seq<Observation>)
    ensures var c := Collapse(SortByDay(historical + newDay));
      && IncreasingDays(c)
      && Series(historical, newDay) == Regularize(c)
      && (forall d :: Observed(c, d) <==> Observed(historical + newDay, d))
  {
    var rows := historical + newDay;
    var sorted := SortByDay(rows);
    CollapseByDay(sorted);
    forall d ensures Observed(sorted, d) <==> Observed(rows, d) {
      ObservedPermutation(sorted, rows, d);
    }
  }

  /**
   * The series runs day by day, without a gap in its index, from the earliest to the
   * latest day of the rows, so its length is latest - earliest + 1.
   */
  lemma SeriesDaily(historical: seq<Observation>, newDay: seq<Observation>)
    ensures var ts, rows := Series(historical, newDay), historical + newDay;
      && (ts == [] <==> rows == [])
      && (forall i :: 0 <= i < |ts| ==> ts[i].day == ts[0].day + i)
      && (ts != [] ==> Observed(rows, ts[0].day) && Observed(rows, ts[|ts| - 1].day))
      && (forall i :: 0 <= i < |rows| ==> Observed(ts, rows[i].day))
  {
    var rows := historical + newDay;
    SeriesSteps(historical, newDay);
    var c := Collapse(SortByDay(rows));
    RegularizeDaily(c);
    if rows != [] {
      assert Observed(rows, rows[0].day);
      assert Observed(c, c[0].day) && Observed(c, c[|c| - 1].day);
    }
    forall i | 0 <= i < |rows| ensures Observed(Regularize(c), rows[i].day) {
      assert Observed(c, rows[i].day);
    }
  }

  /** Every day of the rows is at or after the first day of the series and at or before its last. */
  lemma SeriesSpansRows(historical: seq<Observation>, newDay: seq<Observation>)
    ensures var ts, rows := Series(historical, newDay), historical + newDay;
      forall i :: 0 <= i < |rows| ==> ts != [] && ts[0].day <= rows[i].day <= ts[|ts| - 1].day
  {
    SeriesDaily(historical, newDay);
  }

  /**
   * Every day of the rows holds the mean of that day's numbers, in whatever order the
   * rows came; every other day of the series is missing.
   */
  lemma SeriesValues(historical: seq<Observation>, newDay: seq<Observation>)
    ensures var ts, rows := Series(historical, newDay), historical + newDay;
      && (forall i :: 0 <= i < |ts| && Observed(rows, ts[i].day) ==>
            ts[i].value == GazDataProcessor.Mean(NumbersOn(rows, ts[i].day)))
      && (forall i :: 0 <= i < |ts| && !Observed(rows, ts[i].day) ==> ts[i].value.None?)
  {
    var rows := historical + newDay;
    var sorted := SortByDay(rows);
    SeriesSteps(historical, newDay);
    CollapseByDay(sorted);
    var c := Collapse(sorted);
    var ts := Regularize(c);
    RegularizeDaily(c);
    forall i | 0 <= i < |ts| && Observed(rows, ts[i].day)
      ensures ts[i].value == GazDataProcessor.Mean(NumbersOn(rows, ts[i].day))
    {
      var k :| 0 <= k < |c| && c[k].day == ts[i].day;
      ValueOnEntry(c, k);
      NumbersOnSort(rows, ts[i].day);
    }
  }

  // ---------------------------------------------------------------- metrics

  /** The length of the in-sample window (lines 43-44). */
  const InSampleDays := 7

  /** The number of forecast days (line 48). */
  const ForecastSteps := 7

  function Abs(x: real): real
  {
    if x < 0.0 then -x else x
  }

  /** actual_values - in_sample_forecast */
  function Residuals(actual: seq<real>, predicted: seq<real>): (r: seq<real>)
    requires |actual| == |predicted|
    ensures |r| == |actual|
  {
    seq(|actual|, i requires 0 <= i < |actual| => actual[i] - predicted[i])
  }

  /** mean_absolute_error */
  function MeanAbsoluteError(actual: seq<real>, predicted: seq<real>): real
    requires |actual| == |predicted| > 0
  {
    var r := Residuals(actual, predicted);
    GazDataProcessor.Sum(seq(|r|, i requires 0 <= i < |r| => Abs(r[i]))) / |r| as real
  }

  /** mean_squared_error */
  function MeanSquaredError(actual: seq<real>, predicted: seq<real>): real
    requires |actual| == |predicted| > 0
  {
    var r := Residuals(actual, predicted);
    GazDataProcessor.Sum(seq(|r|, i requires 0 <= i < |r| => r[i] * r[i])) / |r| as real
  }

  /**
   * np.mean(np.abs((actual - predicted) / actual)) * 100; a zero actual value makes a
   * term infinite or NaN, and the metric is then missing.
   */
  function MeanAbsolutePercentageError(actual: seq<real>, predicted: seq<real>): Option<real>
    requires |actual| == |predicted| > 0
  {
    if exists i :: 0 <= i < |actual| && actual[i] == 0.0 then None
    else
      var r := Residuals(actual, predicted);
      var terms := seq(|r|, i requires 0 <= i < |r| => Abs(r[i] / actual[i]));
      Some(GazDataProcessor.Sum(terms) / |r| as real * 100.0)
  }

  /** A sum of terms that are none of them negative is not negative, and is zero only when every term is. */
  lemma {:induction false} SumOfNonNegatives(xs: seq<real>)
    requires forall i :: 0 <= i < |xs| ==> 0.0 <= xs[i]
    ensures 0.0 <= GazDataProcessor.Sum(xs)
    ensures GazDataProcessor.Sum(xs) == 0.0 <==> forall i :: 0 <= i < |xs| ==> xs[i] == 0.0
  {
    if xs != [] {
      SumOfNonNegatives(xs[1..]);
      assert forall i :: 0 < i < |xs| ==> xs[i] == xs[1..][i - 1];
    }
  }

  /** MAE is never negative, and is zero exactly when every prediction equals its actual value. */
  lemma MeanAbsoluteErrorZero(actual: seq<real>, predicted: seq<real>)
    requires |actual| == |predicted| > 0
    ensures 0.0 <= MeanAbsoluteError(actual, predicted)
    ensures MeanAbsoluteError(actual, predicted) == 0.0 <==> actual == predicted
  {
    var r := Residuals(actual, predicted);
    var abs := seq(|r|, i requires 0 <= i < |r| => Abs(r[i]));
    assert forall i :: 0 <= i < |r| ==> 0.0 <= abs[i] && (abs[i] == 0.0 <==> actual[i] == predicted[i]);
    SumOfNonNegatives(abs);
    DivideNonNegative(GazDataProcessor.Sum(abs), |r| as real);
    if (forall i :: 0 <= i < |r| ==> actual[i] == predicted[i]) {
      assert actual == predicted;
    }
  }

  /** MSE is never negative, and is zero when every prediction equals its actual value. */
  lemma MeanSquaredErrorZero(actual: seq<real>, predicted: seq<real>)
    requires |actual| == |predicted| > 0
    ensures 0.0 <= MeanSquaredError(actual, predicted)
    ensures actual == predicted ==> MeanSquaredError(actual, predicted) == 0.0
  {
    var r := Residuals(actual, predicted);
    var sq := seq(|r|, i requires 0 <= i < |r| => r[i] * r[i]);
    forall i | 0 <= i < |r| ensures 0.0 <= sq[i] && (actual[i] == predicted[i] ==> sq[i] == 0.0) {
      SquareNonNegative(r[i]);
    }
    SumOfNonNegatives(sq);
    DivideNonNegative(GazDataProcessor.Sum(sq), |r| as real);
  }

  lemma SquareNonNegative(x: real)
    ensures 0.0 <= x * x
    ensures x == 0.0 ==> x * x == 0.0
  {
    if x < 0.0 {
      var y := -x;
      assert 0.0 < y * y;
      assert x * x == y * y;
    } else if x > 0.0 {
      assert 0.0 < x * x;
    }
  }

  lemma DivideNonNegative(x: real, n: real)
    requires 0.0 <= x && 0.0 < n
    ensures 0.0 <= x / n && (x / n == 0.0 <==> x == 0.0)
  {
  }

  /** MAPE is missing exactly when some actual value is zero, and is never negative otherwise. */
  lemma PercentageErrorDefined(actual: seq<real>, predicted: seq<real>)
    requires |actual| == |predicted| > 0
    ensures var m := MeanAbsolutePercentageError(actual, predicted);
      && (m.None? <==> exists i :: 0 <= i < |actual| && actual[i] == 0.0)
      && (m.Some? ==> 0.0 <= m.value)
  {
    if !exists i :: 0 <= i < |actual| && actual[i] == 0.0 {
      var r := Residuals(actual, predicted);
      var terms := seq(|r|, i requires 0 <= i < |r| => Abs(r[i] / actual[i]));
      SumOfNonNegatives(terms);
      DivideNonNegative(GazDataProcessor.Sum(terms), |r| as real);
    }
  }

  // ---------------------------------------------------------------- the output

  datatype ForecastError =
    | TooShort(length: nat)   // fewer than seven days: the in-sample window does not exist
    | MissingActual(day: int) // a NaN among the actual values: sklearn's metrics reject it

  /** The "type" of an element of the output's "data" list. */
  datatype EntryKind = Historical | HistoricalForecast | Forecast

  function KindText(k: EntryKind): string
  {
    match k
    case Historical => "historical"
    case HistoricalForecast => "historical_forecast"
    case Forecast => "forecast"
  }

  /**
   * One element of the output's "data" list: its "date" is the day, written by IsoDay;
   * its "value" is missing when NaN.
   */
  datatype Entry = Entry(day: int, value: Option<real>, kind: EntryKind)

  /** json_output: the metrics and the data list. */
  datatype JsonOutput = JsonOutput(metrics: map<string, Option<real>>, data: seq<Entry>)

  /** The pair run_model_and_forecast returns. */
  datatype RunOutput = RunOutput(json: JsonOutput, metrics: map<string, Option<real>>)

  const MetricNames: set<string> := {"MAE", "MSE", "RMSE", "ACF1", "MAPE"}

  /** date.strftime("%Y-%m-%d") of a day number. */
  function IsoDay(day: int): string
  {
    FormatIsoDate(DayToDate(day))
  }

  /** The "date" text names its day: read back, it gives the same day number (years 1 to 9999). */
  lemma IsoDayRoundTrip(day: int)
    requires 1 <= DayToDate(day).year <= 9999
    ensures ParseIsoDate(IsoDay(day)).Some? && DateToDay(ParseIsoDate(IsoDay(day)).value) == day
  {
    ParseFormatIsoDate(DayToDate(day));
    DayToDateInverse(day);
  }

  /** Distinct days are written as distinct "date" texts. */
  lemma IsoDayInjective(a: int, b: int)
    requires 1 <= DayToDate(a).year <= 9999 && 1 <= DayToDate(b).year <= 9999
    ensures IsoDay(a) == IsoDay(b) <==> a == b
  {
    if IsoDay(a) == IsoDay(b) {
      IsoDayRoundTrip(a);
      IsoDayRoundTrip(b);
    }
  }

  /** The actual values of the window; the first NaN among them is an error. */
  function Actuals(window: seq<Observation>): (r: Result<seq<real>, ForecastError>)
    ensures r.Ok? <==> forall i :: 0 <= i < |window| ==> window[i].value.Some?
    ensures r.Ok? ==> |r.value| == |window| && forall i :: 0 <= i < |window| ==> r.value[i] == window[i].value.value
    ensures r.Err? ==> r.error.MissingActual? && exists i :: 0 <= i < |window| && window[i].day == r.error.day && window[i].value.None?
  {
    if window == [] then Ok([])
    else if window[0].value.None? then Err(MissingActual(window[0].day))
    else
      var rest :- Actuals(window[1..]);
      Ok([window[0].value.value] + rest)
  }

  /** Lines 86-92: the five metrics of the in-sample predictions. */
  function Metrics(actual: seq<real>, predicted: seq<real>, sqrt: real -> real, acf1: seq<real> -> Option<real>): map<string, Option<real>>
    requires |actual| == |predicted| > 0
  {
    var mse := MeanSquaredError(actual, predicted);
    map[
      "MAE" := Some(MeanAbsoluteError(actual, predicted)),
      "MSE" := Some(mse),
      "RMSE" := Some(sqrt(mse)),
      "ACF1" := acf1(Residuals(actual, predicted)),
      "MAPE" := MeanAbsolutePercentageError(actual, predicted)]
  }

  /** Lines 99-102: one "historical" entry per day of the series. */
  function HistoricalEntries(ts: seq<Observation>): seq<Entry>
  {
    seq(|ts|, i requires 0 <= i < |ts| => Entry(ts[i].day, ts[i].value, Historical))
  }

  /** Lines 104-107: the in-sample predictions, dated by the window's days. */
  function InSampleEntries(window: seq<Observation>, predicted: seq<real>): seq<Entry>
    requires |window| == |predicted|
  {
    seq(|window|, i requires 0 <= i < |window| => Entry(window[i].day, Some(predicted[i]), HistoricalForecast))
  }

  /** Lines 53 and 94-97: the forecast values, dated from the day after `last` on. */
  function ForecastEntries(last: int, forecast: seq<real>): seq<Entry>
  {
    seq(|forecast|, i requires 0 <= i < |forecast| => Entry(last + 1 + i, Some(forecast[i]), Forecast))
  }

  /**
   * Lines 43-114 on a shaped series `ts`: the model's seven in-sample predictions and seven
   * forecast values are inputs, and so are the square root and the lag-1 autocorrelation.
   */
  function Assemble(ts: seq<Observation>, inSample: seq<real>, forecast: seq<real>,
                    sqrt: real -> real, acf1: seq<real> -> Option<real>): Result<RunOutput, ForecastError>
    requires |inSample| == InSampleDays && |forecast| == ForecastSteps
  {
    if |ts| < InSampleDays then Err(TooShort(|ts|))
    else
      var window := ts[|ts| - InSampleDays..];
      var actual :- Actuals(window);
      var metrics := Metrics(actual, inSample, sqrt, acf1);
      Ok(RunOutput(JsonOutput(metrics, Data(ts, inSample, forecast)), metrics))
  }

  /** Line 111: historical entries, then in-sample predictions, then forecast values. */
  function Data(ts: seq<Observation>, inSample: seq<real>, forecast: seq<real>): seq<Entry>
    requires |ts| >= InSampleDays && |inSample| == InSampleDays
  {
    HistoricalEntries(ts) + InSampleEntries(ts[|ts| - InSampleDays..], inSample)
      + ForecastEntries(ts[|ts| - 1].day, forecast)
  }

  /** run_model_and_forecast, with the model's outputs and the two numeric routines as inputs. */
  function RunModelAndForecast(historical: seq<Observation>, newDay: seq<Observation>,
                               inSample: seq<real>, forecast: seq<real>,
                               sqrt: real -> real, acf1: seq<real> -> Option<real>): Result<RunOutput, ForecastError>
    requires |inSample| == InSampleDays && |forecast| == ForecastSteps
  {
    Assemble(Series(historical, newDay), inSample, forecast, sqrt, acf1)
  }

  /**
   * The run fails exactly when the series is shorter than the in-sample window, or when
   * one of the window's seven values is missing; the error names that case.
   */
  lemma AssembleErrors(ts: seq<Observation>, inSample: seq<real>, forecast: seq<real>,
                       sqrt: real -> real, acf1: seq<real> -> Option<real>)
    requires |inSample| == InSampleDays && |forecast| == ForecastSteps
    ensures var r := Assemble(ts, inSample, forecast, sqrt, acf1);
      && (r.Err? && r.error == TooShort(|ts|) <==> |ts| < InSampleDays)
      && (r.Err? <==> |ts| < InSampleDays || exists i :: |ts| - InSampleDays <= i < |ts| && 0 <= i && ts[i].value.None?)
      && (r.Err? && r.error.MissingActual? ==>
            exists i :: |ts| - InSampleDays <= i < |ts| && 0 <= i && ts[i].day == r.error.day && ts[i].value.None?)
  {
    if |ts| >= InSampleDays {
      var window := ts[|ts| - InSampleDays..];
      assert forall i :: 0 <= i < |window| ==> window[i] == ts[|ts| - InSampleDays + i];
      assert forall i :: |ts| - InSampleDays <= i < |ts| ==> ts[i] == window[i - (|ts| - InSampleDays)];
    }
  }

  /** Lines 99-102 and 111: the data list opens with one "historical" entry per day of the series. */
  lemma DataHistorical(ts: seq<Observation>, inSample: seq<real>, forecast: seq<real>)
    requires |ts| >= InSampleDays && |inSample| == InSampleDays && |forecast| == ForecastSteps
    ensures var data := Data(ts, inSample, forecast);
      && |data| == |ts| + InSampleDays + ForecastSteps
      && forall i :: 0 <= i < |ts| ==> data[i] == Entry(ts[i].day, ts[i].value, Historical)
  {
    var h := HistoricalEntries(ts);
    var data := Data(ts, inSample, forecast);
    forall i | 0 <= i < |ts| ensures data[i] == h[i] {
    }
  }

  /** Lines 104-107 and 111: next come the seven in-sample predictions, dated like the last seven historical entries. */
  lemma DataInSample(ts: seq<Observation>, inSample: seq<real>, forecast: seq<real>)
    requires |ts| >= InSampleDays && |inSample| == InSampleDays && |forecast| == ForecastSteps
    ensures var data, n := Data(ts, inSample, forecast), |ts|;
      && |data| == n + InSampleDays + ForecastSteps
      && forall j :: n <= j < n + InSampleDays ==>
           data[j] == Entry(data[j - InSampleDays].day, Some(inSample[j - n]), HistoricalForecast)
  {
    var n := |ts|;
    var h, m := HistoricalEntries(ts), InSampleEntries(ts[n - InSampleDays..], inSample);
    var data := Data(ts, inSample, forecast);
    forall j | n <= j < n + InSampleDays
      ensures data[j] == Entry(data[j - InSampleDays].day, Some(inSample[j - n]), HistoricalForecast)
    {
      assert data[j] == m[j - n];
      assert data[j - InSampleDays] == h[j - InSampleDays];
      assert ts[n - InSampleDays..][j - n] == ts[j - InSampleDays];
    }
  }

  /** Lines 53, 94-97 and 111: the list closes with the seven forecast values, dated from the day after the series ends. */
  lemma DataForecast(ts: seq<Observation>, inSample: seq<real>, forecast: seq<real>)
    requires |ts| >= InSampleDays && |inSample| == InSampleDays && |forecast| == ForecastSteps
    ensures var data, n := Data(ts, inSample, forecast), |ts|;
      && |data| == n + InSampleDays + ForecastSteps
      && forall j :: n + InSampleDays <= j < |data| ==>
           data[j] == Entry(ts[n - 1].day + 1 + (j - n - InSampleDays), Some(forecast[j - n - InSampleDays]), Forecast)
  {
    var n := |ts|;
    var f := ForecastEntries(ts[n - 1].day, forecast);
    var data := Data(ts, inSample, forecast);
    forall j | n + InSampleDays <= j < |data| ensures data[j] == f[j - n - InSampleDays] {
    }
  }

  /** A successful run's data list is the layout above. */
  lemma AssembleData(ts: seq<Observation>, inSample: seq<real>, forecast: seq<real>,
                     sqrt: real -> real, acf1: seq<real> -> Option<real>)
    requires |inSample| == InSampleDays && |forecast| == ForecastSteps
    ensures var r := Assemble(ts, inSample, forecast, sqrt, acf1);
      r.Ok? ==> |ts| >= InSampleDays && r.value.json.data == Data(ts, inSample, forecast)
  {
  }

  /**
   * Lines 86-92 and 109-114: the metrics have exactly the five names, the JSON carries the
   * same metrics the function returns, RMSE is the square root of MSE, MAE and MSE are
   * never negative, and MAE is zero exactly when every prediction hits its actual value.
   */
  lemma AssembleMetrics(ts: seq<Observation>, inSample: seq<real>, forecast: seq<real>,
                        sqrt: real -> real, acf1: seq<real> -> Option<real>)
    requires |inSample| == InSampleDays && |forecast| == ForecastSteps
    ensures var r := Assemble(ts, inSample, forecast, sqrt, acf1);
      r.Ok? ==>
        var m := r.value.metrics;
        && r.value.json.metrics == m
        && m.Keys == MetricNames
        && m["MAE"].Some? && 0.0 <= m["MAE"].value
        && m["MSE"].Some? && 0.0 <= m["MSE"].value
        && m["RMSE"] == Some(sqrt(m["MSE"].value))
        && (m["MAE"] == Some(0.0) <==>
              forall i :: 0 <= i < InSampleDays ==> ts[|ts| - InSampleDays + i].value == Some(inSample[i]))
  {
    var r := Assemble(ts, inSample, forecast, sqrt, acf1);
    if r.Ok? {
      var window := ts[|ts| - InSampleDays..];
      var actual := Actuals(window).value;
      MeanAbsoluteErrorZero(actual, inSample);
      MeanSquaredErrorZero(actual, inSample);
      assert forall i :: 0 <= i < InSampleDays ==> window[i] == ts[|ts| - InSampleDays + i];
      if forall i :: 0 <= i < InSampleDays ==> ts[|ts| - InSampleDays + i].value == Some(inSample[i]) {
        assert actual == inSample;
      }
    }
  }

  /**
   * The historical entries are dated `first`, `first + 1`, ... and the forecast entries
   * carry on from the day after the last of them: one unbroken run of days.
   */
  predicate DatedFrom(data: seq<Entry>, first: int, n: nat)
    requires |data| == n + InSampleDays + ForecastSteps
  {
    && (forall j :: 0 <= j < n ==> data[j].day == first + j)
    && (forall j :: n + InSampleDays <= j < |data| ==> data[j].day == first + j - InSampleDays)
  }

  /** On a series without gaps, the historical and forecast entries are dated as one unbroken run of days. */
  lemma DataDates(ts: seq<Observation>, inSample: seq<real>, forecast: seq<real>)
    requires |ts| >= InSampleDays && |inSample| == InSampleDays && |forecast| == ForecastSteps
    requires forall i :: 0 <= i < |ts| ==> ts[i].day == ts[0].day + i
    ensures var data := Data(ts, inSample, forecast);
      |data| == |ts| + InSampleDays + ForecastSteps && DatedFrom(data, ts[0].day, |ts|)
  {
    var n := |ts|;
    var data := Data(ts, inSample, forecast);
    DataHistorical(ts, inSample, forecast);
    DataForecast(ts, inSample, forecast);
    assert ts[n - 1].day == ts[0].day + n - 1;
  }

  /**
   * End to end: a successful run dates its historical and forecast entries as one unbroken
   * run of days from the earliest input day on, and the first forecast day comes after
   * every input day.
   */
  lemma RunDates(historical: seq<Observation>, newDay: seq<Observation>,
                 inSample: seq<real>, forecast: seq<real>,
                 sqrt: real -> real, acf1: seq<real> -> Option<real>)
    requires |inSample| == InSampleDays && |forecast| == ForecastSteps
    ensures var r, ts, rows := RunModelAndForecast(historical, newDay, inSample, forecast, sqrt, acf1),
                               Series(historical, newDay), historical + newDay;
      r.Ok? ==>
        var data, n := r.value.json.data, |ts|;
        && n >= InSampleDays
        && |data| == n + InSampleDays + ForecastSteps
        && DatedFrom(data, ts[0].day, n)
        && (forall i :: 0 <= i < |rows| ==> rows[i].day < ts[0].day + n)
  {
    var ts := Series(historical, newDay);
    var r := RunModelAndForecast(historical, newDay, inSample, forecast, sqrt, acf1);
    assert r == Assemble(ts, inSample, forecast, sqrt, acf1);
    AssembleData(ts, inSample, forecast, sqrt, acf1);
    if r.Ok? {
      SeriesDaily(historical, newDay);
      SeriesSpansRows(historical, newDay);
      DataDates(ts, inSample, forecast);
      assert r.value.json.data == Data(ts, inSample, forecast);
    }
  }
}
