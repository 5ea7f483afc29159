/**
 * The response shapes the client receives from the service. Temperatures
 * are `real`; years, months and counts are integers.
 */
module Types {
  import opened Wrappers

  /** Which series the chart shows. */
  datatype Mode = Monthly | Annual

  /** Summary statistics for the selected stations and years; each is null when undefined. */
  datatype AnalyticsSummary = AnalyticsSummary(
    count: int,
    mean: Option<real>,
    std: Option<real>,
    minimum: Option<real>,
    maximum: Option<real>)

  datatype StationsResponse = StationsResponse(count: int, stations: seq<string>)

  datatype MonthlyPoint = MonthlyPoint(year: int, month: int, value: real)

  datatype MonthlySeries = MonthlySeries(station: string, points: seq<MonthlyPoint>)

  datatype MonthlyResponse = MonthlyResponse(stations: seq<MonthlySeries>)

  /** An annual point; `std`, `lower` and `upper` are present only when the deviation band was asked for. */
  datatype AnnualPoint = AnnualPoint(
    year: int,
    mean: real,
    std: Option<real>,
    lower: Option<real>,
    upper: Option<real>)

  datatype AnnualSeries = AnnualSeries(station: string, points: seq<AnnualPoint>)

  datatype AnnualResponse = AnnualResponse(stations: seq<AnnualSeries>)

  /** The dataset's first and last year, null when the dataset is empty. */
  datatype DataRangeResponse = DataRangeResponse(minYear: Option<int>, maxYear: Option<int>)
}
