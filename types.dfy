/** The records of src/types/index.ts. */
module Types {

  datatype Option<T> = None | Some(value: T)

  /** A calendar day as a day number: a later day has a larger number, and
      the day `k` days before day `d` is `d - k`. */
  type Day = int

  datatype Status = Active | Paused | Completed

  /** The string value of a status, as the status select and the CSV use it. */
  function StatusName(s: Status): string {
    match s
    case Active => "active"
    case Paused => "paused"
    case Completed => "completed"
  }

  /** One campaign row. `growth`, `ctr` and `cpc` are exact reals. */
  datatype MetricData = MetricData(
    id: int,
    campaignName: string,
    revenue: int,
    users: int,
    conversions: int,
    growth: real,
    date: Day,
    channel: string,
    status: Status,
    ctr: real,
    cpc: real)

  /** One point of the revenue time series. */
  datatype ChartData = ChartData(date: Day, revenue: int, users: int, conversions: int)

  /** One slice of the channel breakdown. */
  datatype ChannelData = ChannelData(name: string, value: int, color: string)
}
