/**
 * The whole script as one function from the two input tables to the values
 * it writes: join, APP_OPENED count, price cleaning, ADD_TO_CART total,
 * enriched projection and bonus report.
 */
module Process {
  import opened Wrappers
  import opened Schema
  import opened Join
  import opened Cleaning
  import opened Metrics
  import opened Sessions
  import opened Enrich

  /** What one run produces. */
  datatype Report = Report(
    appOpenedCount: nat,
    addToCartCents: int,
    enriched: seq<EnrichedRow>,
    bonus: map<SessionKey, BonusRow>)

  /**
   * Why a run stops. Line 23 divides a NULL sum by 100, which raises. Lines
   * 38-40 average over an empty `session_lengths` when no session has two
   * events; the NULL average leaves line 47 no type to infer, which raises.
   */
  datatype Failure = AddToCartSumIsNull | AverageIsNull

  /** The pipeline of lines 11-62; `toCents` is the double cast and `round(x * 100)` of lines 18-19. */
  function Run(events: seq<RawEvent>, devices: seq<Device>, toCents: string -> Option<int>): (r: Result<Report, Failure>)
    ensures r.Success? ==> r.value.appOpenedCount <= |InnerJoin(events, devices)|
    ensures r.Success? ==> |r.value.enriched| == |InnerJoin(events, devices)|
    ensures r.Success? ==> r.value.bonus.Keys == QualifyingSessions(CleanPrices(InnerJoin(events, devices), toCents)) != {}
  {
    var joined := InnerJoin(events, devices);
    var cleaned := CleanPrices(joined, toCents);
    match AddToCartCents(cleaned)
    case None => Failure(AddToCartSumIsNull)
    case Some(total) =>
      if QualifyingSessions(cleaned) == {} then Failure(AverageIsNull)
      else Success(Report(AppOpenedCount(joined), total, EnrichedData(joined), BonusReport(cleaned)))
  }

  /** An input event that the join keeps. */
  predicate Joined(e: RawEvent, devices: seq<Device>) {
    exists d :: d in devices && d.id == e.deviceId
  }

  /** No ADD_TO_CART event that has a device has a price that survives cleaning. */
  predicate NoCartPrice(events: seq<RawEvent>, devices: seq<Device>, toCents: string -> Option<int>) {
    forall e :: e in events && e.eventType == ADD_TO_CART && Joined(e, devices) ==>
      CleanPrice(e.totalPrice, toCents).None?
  }

  /**
   * A run fails exactly when no ADD_TO_CART event that has a device has a
   * price that survives cleaning (there is no `$0` default), or when no
   * session has two joined events (there is no default average either).
   * The first check comes first: its failure is reported when both hold.
   */
  lemma RunFailsExactlyWhen(events: seq<RawEvent>, devices: seq<Device>, toCents: string -> Option<int>)
    ensures var r := Run(events, devices, toCents);
            r.Failure? <==>
              NoCartPrice(events, devices, toCents) ||
              QualifyingSessions(CleanPrices(InnerJoin(events, devices), toCents)) == {}
    ensures var r := Run(events, devices, toCents);
            r.Failure? ==> (r.error == AddToCartSumIsNull <==> NoCartPrice(events, devices, toCents))
  {
    var joined := InnerJoin(events, devices);
    var cleaned := CleanPrices(joined, toCents);
    if AddToCartCents(cleaned).None? {
      forall e | e in events && e.eventType == ADD_TO_CART && Joined(e, devices)
        ensures CleanPrice(e.totalPrice, toCents).None?
      {
        var d :| d in devices && d.id == e.deviceId;
        JoinMembership(events, devices, Row(e, d));
        CleanPricesMembership(joined, toCents, WithPrice(Row(e, d), CleanPrice(e.totalPrice, toCents)));
      }
    } else {
      var row :| row in cleaned && row.event.eventType == ADD_TO_CART && row.event.totalPrice.Some?;
      CleanPricesMembership(joined, toCents, row);
      var j :| j in joined && row == WithPrice(j, CleanPrice(j.event.totalPrice, toCents));
      JoinMembership(events, devices, j);
      assert j.event in events && Joined(j.event, devices);
    }
  }

  /**
   * What a successful run reports: the APP_OPENED count of the joined table,
   * the sum of the non-NULL ADD_TO_CART cents, one enriched row per joined
   * row, and one bonus row per session with at least two events.
   */
  lemma RunSpec(events: seq<RawEvent>, devices: seq<Device>, toCents: string -> Option<int>)
    requires Run(events, devices, toCents).Success?
    ensures var joined := InnerJoin(events, devices);
            var cleaned := CleanPrices(joined, toCents);
            var report := Run(events, devices, toCents).value;
            && report.appOpenedCount == |Where(joined, APP_OPENED)|
            && report.addToCartCents == Sum(Present(Prices(Where(cleaned, ADD_TO_CART))))
            && |report.enriched| == |joined|
            && report.bonus.Keys == QualifyingSessions(cleaned)
  {
    var joined := InnerJoin(events, devices);
    var cleaned := CleanPrices(joined, toCents);
    AddToCartCentsSpec(cleaned);
    assert AddToCartCents(cleaned).Some? && QualifyingSessions(cleaned) != {};
    var report := Report(AppOpenedCount(joined), AddToCartCents(cleaned).value, EnrichedData(joined), BonusReport(cleaned));
    assert Run(events, devices, toCents) == Success(report);
  }

  /**
   * Output rows carry no order: inputs with the same multisets of events and
   * devices give the same outcome, the same scalars and bonus report, and
   * enriched tables that differ only in row order.
   */
  lemma RunIgnoresOrder(e1: seq<RawEvent>, d1: seq<Device>, e2: seq<RawEvent>, d2: seq<Device>,
                        toCents: string -> Option<int>)
    requires multiset(e1) == multiset(e2) && multiset(d1) == multiset(d2)
    ensures Run(e1, d1, toCents).Success? == Run(e2, d2, toCents).Success?
    ensures Run(e1, d1, toCents).Success? ==>
            var r1, r2 := Run(e1, d1, toCents).value, Run(e2, d2, toCents).value;
            && r1.appOpenedCount == r2.appOpenedCount
            && r1.addToCartCents == r2.addToCartCents
            && r1.bonus == r2.bonus
            && multiset(r1.enriched) == multiset(r2.enriched)
  {
    var j1, j2 := InnerJoin(e1, d1), InnerJoin(e2, d2);
    JoinIgnoresOrder(e1, d1, e2, d2);
    var c1, c2 := CleanPrices(j1, toCents), CleanPrices(j2, toCents);
    CleanPricesIgnoresOrder(j1, j2, toCents);
    AppOpenedCountIgnoresOrder(j1, j2);
    WhereIgnoresOrder(c1, c2, ADD_TO_CART);
    PriceSumIgnoresOrder(Where(c1, ADD_TO_CART), Where(c2, ADD_TO_CART));
    assert AddToCartCents(c1) == AddToCartCents(c2);
    BonusReportIgnoresOrder(c1, c2);
    assert QualifyingSessions(c1) == QualifyingSessions(c2) by {
      assert BonusReport(c1).Keys == BonusReport(c2).Keys;
    }
    EnrichedDataIgnoresOrder(j1, j2);
  }

  /**
   * A worked case: one device and two events of session "s1", an
   * ADD_TO_CART at 100 for "$10.00" and an APP_OPENED at 150 for "$0".
   */
  lemma TwoEventSession(toCents: string -> Option<int>)
    requires toCents("10.00") == Some(1000) && toCents("0") == Some(0)
    ensures var d := Device("d1", []);
            var cart := Event("d1", ADD_TO_CART, "s1", 100, "", Some("$10.00"), "u1");
            var open := Event("d1", APP_OPENED, "s1", 150, "", Some("$0"), "u1");
            var r := Run([cart, open], [d], toCents);
            && r.Success?
            && r.value.appOpenedCount == 1
            && r.value.addToCartCents == 1000
            && r.value.bonus == map["s1" := BonusRow(50, Some(1000))]
  {
    var d := Device("d1", []);
    var cart := Event("d1", ADD_TO_CART, "s1", 100, "", Some("$10.00"), "u1");
    var open := Event("d1", APP_OPENED, "s1", 150, "", Some("$0"), "u1");
    assert "$10.00" == "$" + "10.00" && "$0" == "$" + "0";
    ExampleRun(cart, open, d, toCents);
  }

  /**
   * A worked failure: a priced ADD_TO_CART alone in its session leaves no
   * session to average, so the run stops although the cart total exists.
   */
  lemma LoneEventSession(toCents: string -> Option<int>)
    requires toCents("10.00") == Some(1000)
    ensures var d := Device("d1", []);
            var cart := Event("d1", ADD_TO_CART, "s1", 100, "", Some("$10.00"), "u1");
            Run([cart], [d], toCents) == Failure(AverageIsNull)
  {
    var d := Device("d1", []);
    var cart := Event("d1", ADD_TO_CART, "s1", 100, "", Some("$10.00"), "u1");
    assert "$10.00" == "$" + "10.00";
    CleanDollarPrice("10.00", toCents);
    LoneEventRun(cart, d, toCents);
  }

  lemma LoneEventRun(cart: RawEvent, d: Device, toCents: string -> Option<int>)
    requires cart.deviceId == d.id && cart.eventType == ADD_TO_CART
    requires CleanPrice(cart.totalPrice, toCents).Some?
    ensures Run([cart], [d], toCents) == Failure(AverageIsNull)
  {
    var joined := InnerJoin([cart], [d]);
    assert joined == [Row(cart, d)] by {
      assert [cart][1..] == [] && [d][1..] == [];
      assert Matches(cart, [d]) == [Row(cart, d)] + Matches(cart, []);
      assert InnerJoin([cart], [d]) == Matches(cart, [d]) + InnerJoin([], [d]);
    }
    var cleaned := CleanPrices(joined, toCents);
    var row := WithPrice(Row(cart, d), CleanPrice(cart.totalPrice, toCents));
    assert cleaned == [row] by {
      CleanPricesAt(joined, toCents, 0);
    }
    assert AddToCartCents(cleaned).Some?;
    assert QualifyingSessions(cleaned) == {} by {
      forall s | s in SessionsOf([row])
        ensures |InSession([row], s)| < 2
      {
        assert [row][1..] == [];
      }
    }
  }

  lemma ExampleRun(cart: RawEvent, open: RawEvent, d: Device, toCents: string -> Option<int>)
    requires cart.deviceId == d.id && open.deviceId == d.id
    requires cart.eventType == ADD_TO_CART && open.eventType == APP_OPENED
    requires cart.session == "s1" && open.session == "s1"
    requires cart.timestamp == 100 && open.timestamp == 150
    requires cart.totalPrice == Some("$" + "10.00") && open.totalPrice == Some("$" + "0")
    requires toCents("10.00") == Some(1000) && toCents("0") == Some(0)
    ensures Run([cart, open], [d], toCents)
         == Success(Report(1, 1000, EnrichedData([Row(cart, d), Row(open, d)]), map["s1" := BonusRow(50, Some(1000))]))
  {
    var joined := InnerJoin([cart, open], [d]);
    assert joined == [Row(cart, d), Row(open, d)] && AppOpenedCount(joined) == 1 by {
      ExampleJoin(cart, open, d);
    }
    var cleanCart := WithPrice(Row(cart, d), Some(1000));
    var cleanOpen := WithPrice(Row(open, d), Some(0));
    var cleaned := CleanPrices(joined, toCents);
    assert cleaned == [cleanCart, cleanOpen] by {
      ExampleCleaning(joined, toCents);
    }
    assert AddToCartCents(cleaned) == Some(1000) by {
      ExampleCartTotal(cleanCart, cleanOpen);
    }
    assert BonusReport(cleaned) == map["s1" := BonusRow(50, Some(1000))] by {
      ExampleBonus(cleanCart, cleanOpen);
    }
    assert QualifyingSessions(cleaned) != {} by {
      assert "s1" in BonusReport(cleaned);
    }
  }

  lemma ExampleBonus(a: CleanRow, b: CleanRow)
    requires a.event.session == "s1" && b.event.session == "s1"
    requires a.event.timestamp == 100 && b.event.timestamp == 150
    requires a.event.totalPrice == Some(1000) && b.event.totalPrice == Some(0)
    ensures BonusReport([a, b]) == map["s1" := BonusRow(50, Some(1000))]
  {
    SessionsAndTimesOfExample(a, b);
    BonusReportSpec([a, b]);
    var bonus := BonusReport([a, b]);
    assert bonus.Keys == {"s1"};
    assert bonus["s1"] == BonusRow(50, Some(1000));
    SingletonMap(bonus, "s1", BonusRow(50, Some(1000)));
  }

  lemma SingletonMap(m: map<SessionKey, BonusRow>, k: SessionKey, v: BonusRow)
    requires m.Keys == {k} && m[k] == v
    ensures m == map[k := v]
  {
  }

  lemma ExampleJoin(cart: RawEvent, open: RawEvent, d: Device)
    requires cart.deviceId == d.id && open.deviceId == d.id
    requires cart.eventType == ADD_TO_CART && open.eventType == APP_OPENED
    ensures InnerJoin([cart, open], [d]) == [Row(cart, d), Row(open, d)]
    ensures AppOpenedCount(InnerJoin([cart, open], [d])) == 1
  {
    var joined := InnerJoin([cart, open], [d]);
    assert [cart, open][1..] == [open];
    assert [d][1..] == [];
    assert [open][1..] == [];
    assert Matches(cart, [d]) == [Row(cart, d)];
    assert Matches(open, [d]) == [Row(open, d)];
    assert InnerJoin([open], [d]) == [Row(open, d)];
    assert joined == [Row(cart, d), Row(open, d)];
    assert ADD_TO_CART[1] != APP_OPENED[1];
    assert [Row(open, d)][1..] == [];
    assert Where([Row(open, d)], APP_OPENED) == [Row(open, d)];
    assert joined[1..] == [Row(open, d)];
    assert Where(joined, APP_OPENED) == Where(joined[1..], APP_OPENED);
  }

  lemma ExampleCleaning(joined: seq<RawRow>, toCents: string -> Option<int>)
    requires |joined| == 2
    requires joined[0].event.totalPrice == Some("$" + "10.00") && joined[1].event.totalPrice == Some("$" + "0")
    requires toCents("10.00") == Some(1000) && toCents("0") == Some(0)
    ensures CleanPrices(joined, toCents) == [WithPrice(joined[0], Some(1000)), WithPrice(joined[1], Some(0))]
  {
    CleanDollarPrice("10.00", toCents);
    CleanDollarPrice("0", toCents);
    assert CleanPrice(joined[0].event.totalPrice, toCents) == Some(1000);
    assert CleanPrice(joined[1].event.totalPrice, toCents) == Some(0);
    CleanPricesAt(joined, toCents, 0);
    CleanPricesAt(joined, toCents, 1);
  }

  lemma CleanDollarPrice(s: string, toCents: string -> Option<int>)
    requires '$' !in s
    ensures CleanPrice(Some("$" + s), toCents) == toCents(s)
  {
    assert ("$" + s)[1..] == s;
    StripDollarsKeepsPlain(s);
    assert StripDollars("$" + s) == s;
  }

  lemma ExampleCartTotal(cart: CleanRow, open: CleanRow)
    requires cart.event.eventType == ADD_TO_CART && open.event.eventType == APP_OPENED
    requires cart.event.totalPrice == Some(1000)
    ensures AddToCartCents([cart, open]) == Some(1000)
  {
    assert ADD_TO_CART[1] != APP_OPENED[1];
    assert [cart, open][1..] == [open];
    assert [open][1..] == [];
    assert Where([open], ADD_TO_CART) == [];
    assert Where([cart, open], ADD_TO_CART) == [cart] + Where([open], ADD_TO_CART);
    assert Prices([cart]) == [Some(1000)];
  }

  lemma SessionsAndTimesOfExample(a: CleanRow, b: CleanRow)
    requires a.event.session == "s1" && b.event.session == "s1"
    requires a.event.timestamp == 100 && b.event.timestamp == 150
    requires a.event.totalPrice == Some(1000) && b.event.totalPrice == Some(0)
    ensures SessionsOf([a, b]) == {"s1"}
    ensures InSession([a, b], "s1") == [a, b]
    ensures QualifyingSessions([a, b]) == {"s1"}
    ensures MaxOf(Timestamps([a, b])) - MinOf(Timestamps([a, b])) == 50
    ensures NullSkippingSum(Prices([a, b])) == Some(1000)
  {
    assert [a, b][1..] == [b];
    assert [b][1..] == [];
    assert InSession([b], "s1") == [b];
    assert Timestamps([a, b]) == [100, 150];
    assert [100, 150][1..] == [150];
    assert Prices([a, b]) == [Some(1000), Some(0)];
    assert [Some(1000), Some(0)][1..] == [Some(0)];
  }
}
