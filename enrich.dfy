/** Line 54: the `enriched_data` selection over the joined table (not the cleaned one). */
module Enrich {
  import opened Wrappers
  import opened Schema
  import opened Join
  import opened Tables

  /** A row of `enriched_data`, columns in the selection's order; `totalPrice` is the raw string. */
  datatype EnrichedRow = EnrichedRow(
    session: SessionKey,
    deviceId: DeviceKey,
    timestamp: int,
    timstampIso: string,
    eventType: string,
    totalPrice: Option<string>,
    user: string)

  /** The selected columns of one event, in selection order. */
  function Project(e: RawEvent): EnrichedRow {
    EnrichedRow(e.session, e.deviceId, e.timestamp, e.timstampIso, e.eventType, e.totalPrice, e.user)
  }

  /** The event whose selected columns are `x`, back in the events.csv column order. */
  function ToEvent(x: EnrichedRow): (e: RawEvent)
    ensures Project(e) == x
  {
    Event(x.deviceId, x.eventType, x.session, x.timestamp, x.timstampIso, x.totalPrice, x.user)
  }

  /**
   * `joined.select("session", "deviceId", "timestamp", "timstamp_iso", "type", "totalPrice", "User")`:
   * one output row per joined row, carrying exactly that row's event columns,
   * `totalPrice` as read (with its `$`).
   */
  function EnrichedData(joined: seq<RawRow>): (r: seq<EnrichedRow>)
    ensures |r| == |joined|
    ensures forall i :: 0 <= i < |r| ==> ToEvent(r[i]) == joined[i].event
  {
    seq(|joined|, i requires 0 <= i < |joined| => Project(joined[i].event))
  }

  /**
   * An enriched row comes out of the pipeline exactly when its event is an
   * input event and some device has its `deviceId` as `ID`: the projection
   * drops only the device columns.
   */
  lemma EnrichedDataOfJoin(events: seq<RawEvent>, devices: seq<Device>, x: EnrichedRow)
    ensures x in EnrichedData(InnerJoin(events, devices)) <==>
            ToEvent(x) in events && exists d :: d in devices && d.id == x.deviceId
  {
    var joined := InnerJoin(events, devices);
    var out := EnrichedData(joined);
    if x in out {
      var i :| 0 <= i < |out| && out[i] == x;
      assert joined[i] in joined;
      JoinMembership(events, devices, joined[i]);
      assert joined[i].device in devices && joined[i].device.id == x.deviceId;
    }
    if ToEvent(x) in events && exists d :: d in devices && d.id == x.deviceId {
      var d :| d in devices && d.id == x.deviceId;
      var row := Row(ToEvent(x), d);
      JoinMembership(events, devices, row);
      var i :| 0 <= i < |joined| && joined[i] == row;
      assert out[i] == Project(ToEvent(x));
    }
  }

  function ProjectRow(row: RawRow): EnrichedRow {
    Project(row.event)
  }

  /** The enriched rows depend only on the multiset of joined rows. */
  lemma EnrichedDataIgnoresOrder(a: seq<RawRow>, b: seq<RawRow>)
    requires multiset(a) == multiset(b)
    ensures multiset(EnrichedData(a)) == multiset(EnrichedData(b))
  {
    assert EnrichedData(a) == Column(ProjectRow, a);
    assert EnrichedData(b) == Column(ProjectRow, b);
    ColumnIgnoresOrder(ProjectRow, a, b);
  }
}
