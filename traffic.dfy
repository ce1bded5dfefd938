/**
 * One row of the interstate traffic table after cleaning: the renamed
 * columns `rain`, `snow`, `cloud` and `weather`, without
 * `weather_description`.
 */
module Traffic {

  /** The `date_time` column, as an abstract totally ordered instant. */
  type Timestamp = int

  datatype Record = Record(
    dateTime: Timestamp,
    trafficVolume: int,
    holiday: string,
    temp: real,
    rain: real,
    snow: real,
    cloud: int,
    weather: string)
}
