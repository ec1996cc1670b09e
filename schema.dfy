/** The rows the pipeline reads and produces. */
module Schema {
  import opened Wrappers

  type DeviceKey = string
  type SessionKey = string

  /** Event types the metrics look for. */
  const APP_OPENED: string := "APP_OPENED"
  const ADD_TO_CART: string := "ADD_TO_CART"

  /** A row of devices.csv: its `ID` column and the remaining columns, whose schema is inferred at load time. */
  datatype Device = Device(id: DeviceKey, attributes: seq<string>)

  /**
   * A row of events.csv. `P` is the type of the `totalPrice` column: the raw
   * currency string before cleaning, integer cents after it. `timstampIso`
   * keeps the source's column name `timstamp_iso`.
   */
  datatype Event<P> = Event(
    deviceId: DeviceKey,
    eventType: string,
    session: SessionKey,
    timestamp: int,
    timstampIso: string,
    totalPrice: P,
    user: string)

  /** A row of the joined table: the columns of one event next to those of one device. */
  datatype Row<P> = Row(event: Event<P>, device: Device)

  type RawEvent = Event<Option<string>>
  type RawRow = Row<Option<string>>
  type CleanRow = Row<Option<int>>

  /** `row` with its `totalPrice` column replaced by `price`. */
  function WithPrice<P, Q>(row: Row<P>, price: Q): Row<Q> {
    var e := row.event;
    Row(Event(e.deviceId, e.eventType, e.session, e.timestamp, e.timstampIso, price, e.user), row.device)
  }

  /** Every column of `row` except `totalPrice`. */
  function Skeleton<P>(row: Row<P>): Row<()> {
    WithPrice(row, ())
  }

  /** The column-wise skeletons of a table. */
  function Skeletons<P>(rows: seq<Row<P>>): (r: seq<Row<()>>)
    ensures |r| == |rows|
  {
    seq(|rows|, i requires 0 <= i < |rows| => Skeleton(rows[i]))
  }
}
