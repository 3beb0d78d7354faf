/**
 * The API's `GET /forecast/?option=k` handler: the option check, the option-to-days
 * table, the index of forecast dates starting tomorrow, and the response it builds.
 * The loaded ARIMA model is the parameter `model` (steps to predicted means), the
 * clock is the parameter `now`, and the metrics file's contents are the parameter
 * `metrics`, kept opaque.
 */
module ForecastApi {
  import opened Wrappers
  import opened Calendar

  /** Forecast days for options 1, 2, 3 and 4. */
  const ForecastDays: seq<nat> := [1, 2, 4, 7]

  /** An HTTPException: a status code and its detail text. */
  datatype HttpError = HttpError(status: nat, detail: string)

  /** The Plotly figure: one 'lines+markers' trace named 'Forecast' and the layout titles. */
  datatype Chart = Chart(
    x: seq<Instant>, y: seq<real>, mode: string, name: string,
    title: string, xAxisTitle: string, yAxisTitle: string)

  /** The response body: exactly the keys "option", "metrics" and "forecast_chart". */
  datatype Response<M> = Response(option: int, metrics: M, forecastChart: Chart)

  /** The option check and the days it maps to; anything outside 1..4 is a 400. */
  function DaysFor(option: int): (r: Result<nat, HttpError>)
    ensures r.Err? <==> option < 1 || 4 < option
    ensures r.Err? ==> r.error == HttpError(400, "Invalid option provided")
    ensures r.Ok? ==> r.value == ForecastDays[option - 1]
  {
    if option !in [1, 2, 3, 4] then Err(HttpError(400, "Invalid option provided"))
    else Ok(ForecastDays[option - 1])
  }

  /** A larger option asks for more days, from one day up to a week. */
  lemma DaysIncreasing(a: int, b: int)
    requires 1 <= a < b <= 4
    ensures 1 <= DaysFor(a).value < DaysFor(b).value <= 7
  {
  }

  /** pd.date_range(start, periods, freq='D'): `periods` instants one day apart, at the start's time of day. */
  function DateRange(start: Instant, periods: nat): (r: seq<Instant>)
    ensures |r| == periods
    ensures periods > 0 ==> r[0] == start
    ensures forall i :: 0 < i < periods ==> r[i].day == r[i - 1].day + 1 && r[i].second == start.second
  {
    seq(periods, i => Instant(start.day + i, start.second))
  }

  /**
   * The range of `days + 1` instants from now, without now itself: `days` consecutive days,
   * the first of them tomorrow, all at the current time of day.
   */
  function ForecastIndex(now: Instant, days: nat): (index: seq<Instant>)
    ensures |index| == days
    ensures forall i :: 0 <= i < days ==> index[i] == Instant(now.day + 1 + i, now.second)
  {
    DateRange(now, days + 1)[1..]
  }

  /** The handler: validate the option, forecast that many days, and chart them with the metrics. */
  function Forecast<M>(option: int, now: Instant, model: nat -> seq<real>, metrics: M): (r: Result<Response<M>, HttpError>)
    ensures r.Err? <==> DaysFor(option).Err?
    ensures r.Err? ==> r.error.status == 400
    ensures r.Ok? ==> r.value.option == option && r.value.metrics == metrics
    ensures r.Ok? ==> var chart := r.value.forecastChart;
      |chart.x| == ForecastDays[option - 1] && chart.y == model(|chart.x|)
  {
    var days :- DaysFor(option);
    var index := ForecastIndex(now, days);
    var values := model(days);
    var chart := Chart(index, values, "lines+markers", "Forecast",
                       "Air Quality Forecast", "Date", "Air Quality Index");
    Ok(Response(option, metrics, chart))
  }

  /**
   * A successful response charts one point per forecast date: tomorrow onwards, consecutive,
   * as many values as dates when the model returns as many means as steps asked for.
   */
  lemma ForecastChart<M>(option: int, now: Instant, model: nat -> seq<real>, metrics: M)
    requires forall steps: nat :: |model(steps)| == steps
    requires 1 <= option <= 4
    ensures Forecast(option, now, model, metrics).Ok?
    ensures var chart := Forecast(option, now, model, metrics).value.forecastChart;
      |chart.x| == |chart.y| && 1 <= |chart.x| <= 7 && chart.x[0] == Instant(now.day + 1, now.second)
      && forall i :: 0 < i < |chart.x| ==> chart.x[i].day == chart.x[i - 1].day + 1
  {
  }

  /** The dashboard's choices and the option each one sends. */
  const DashboardOptions: map<string, int> :=
    map["Tomorrow" := 1, "2 Days" := 2, "4 Days" := 3, "Next Week" := 4]

  /** Every dashboard choice passes the check and forecasts the days its label names. */
  lemma DashboardOptionsAccepted()
    ensures forall choice :: choice in DashboardOptions ==> DaysFor(DashboardOptions[choice]).Ok?
    ensures DaysFor(DashboardOptions["Tomorrow"]).value == 1
    ensures DaysFor(DashboardOptions["2 Days"]).value == 2
    ensures DaysFor(DashboardOptions["4 Days"]).value == 4
    ensures DaysFor(DashboardOptions["Next Week"]).value == 7
  {
  }
}
