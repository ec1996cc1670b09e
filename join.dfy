/** The inner join of events to devices on `events.deviceId == devices.ID`. */
module Join {
  import opened Wrappers
  import opened Schema

  /** The rows one event contributes: one per device whose `ID` equals its `deviceId`. */
  function Matches(event: RawEvent, devices: seq<Device>): (r: seq<RawRow>)
    ensures forall row :: row in r ==> row.event == event && row.device in devices && row.device.id == event.deviceId
  {
    if devices == [] then []
    else (if devices[0].id == event.deviceId then [Row(event, devices[0])] else []) + Matches(event, devices[1..])
  }

  /** `events.join(devices, events.deviceId == devices.ID, "inner")`, rows in event-major order. */
  function InnerJoin(events: seq<RawEvent>, devices: seq<Device>): (r: seq<RawRow>)
    ensures forall row :: row in r ==> row.event in events && row.device in devices && row.event.deviceId == row.device.id
  {
    if events == [] then [] else Matches(events[0], devices) + InnerJoin(events[1..], devices)
  }

  lemma {:induction false} MatchesMultiplicity(event: RawEvent, devices: seq<Device>, e: RawEvent, d: Device)
    ensures multiset(Matches(event, devices))[Row(e, d)] ==
            if e == event && d.id == event.deviceId then multiset(devices)[d] else 0
  {
    if devices != [] {
      MatchesMultiplicity(event, devices[1..], e, d);
      assert devices == [devices[0]] + devices[1..];
    }
  }

  /**
   * Join multiplicity: the pair (e, d) occurs once for every copy of e among
   * the events and every copy of d among the devices when the keys agree, and
   * never otherwise.
   */
  lemma {:induction false} JoinMultiplicity(events: seq<RawEvent>, devices: seq<Device>, e: RawEvent, d: Device)
    ensures multiset(InnerJoin(events, devices))[Row(e, d)] ==
            if e.deviceId == d.id then multiset(events)[e] * multiset(devices)[d] else 0
  {
    if events != [] {
      var head, tail := events[0], events[1..];
      JoinMultiplicity(tail, devices, e, d);
      MatchesMultiplicity(head, devices, e, d);
      assert events == [head] + tail;
      assert InnerJoin(events, devices) == Matches(head, devices) + InnerJoin(tail, devices);
      if e.deviceId == d.id {
        var k := multiset(devices)[d];
        var m := multiset(tail)[e];
        var c := if e == head then 1 else 0;
        assert multiset(events)[e] == c + m;
        MulDistributes(c, m, k);
      }
    }
  }

  lemma MulDistributes(c: nat, m: nat, k: nat)
    ensures (c + m) * k == c * k + m * k
  {
  }

  /** A row is in the join exactly when its event and its device are inputs whose keys agree. */
  lemma JoinMembership(events: seq<RawEvent>, devices: seq<Device>, row: RawRow)
    ensures row in InnerJoin(events, devices) <==>
            row.event in events && row.device in devices && row.event.deviceId == row.device.id
  {
    JoinMultiplicity(events, devices, row.event, row.device);
    if row.event in events && row.device in devices && row.event.deviceId == row.device.id {
      var a, b := multiset(events)[row.event], multiset(devices)[row.device];
      assert a > 0 && b > 0;
      assert a * b > 0;
    }
  }

  /** An event whose `deviceId` matches no device contributes no row to the join. */
  lemma UnmatchedEventDropped(events: seq<RawEvent>, devices: seq<Device>, e: RawEvent)
    requires forall d :: d in devices ==> d.id != e.deviceId
    ensures forall row :: row in InnerJoin(events, devices) ==> row.event != e
  {
  }

  /** The join depends only on the multisets of its inputs, not on their order. */
  lemma JoinIgnoresOrder(e1: seq<RawEvent>, d1: seq<Device>, e2: seq<RawEvent>, d2: seq<Device>)
    requires multiset(e1) == multiset(e2) && multiset(d1) == multiset(d2)
    ensures multiset(InnerJoin(e1, d1)) == multiset(InnerJoin(e2, d2))
  {
    forall row: RawRow
      ensures multiset(InnerJoin(e1, d1))[row] == multiset(InnerJoin(e2, d2))[row]
    {
      JoinMultiplicity(e1, d1, row.event, row.device);
      JoinMultiplicity(e2, d2, row.event, row.device);
    }
  }
}
