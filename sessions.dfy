/**
 * The per-session aggregates: `groupBy("session")` with count, max and min
 * timestamp, the `event_count >= 2` gate, `session_length`, the per-session
 * cent sums and the bonus join of the two.
 */
module Sessions {
  import opened Wrappers
  import opened Schema
  import opened Metrics

  /** The distinct session keys of a table. */
  function SessionsOf(rows: seq<CleanRow>): set<SessionKey> {
    set row | row in rows :: row.event.session
  }

  /** The rows of one session group, in table order. */
  function InSession(rows: seq<CleanRow>, s: SessionKey): (r: seq<CleanRow>)
    ensures forall row :: row in r <==> row in rows && row.event.session == s
  {
    if rows == [] then []
    else
      assert forall row :: row in rows <==> row == rows[0] || row in rows[1..];
      (if rows[0].event.session == s then [rows[0]] else []) + InSession(rows[1..], s)
  }

  /** The group keeps every copy of a row of that session and nothing else. */
  lemma {:induction false} InSessionMultiplicity(rows: seq<CleanRow>, s: SessionKey, row: CleanRow)
    ensures multiset(InSession(rows, s))[row] == if row.event.session == s then multiset(rows)[row] else 0
  {
    if rows != [] {
      InSessionMultiplicity(rows[1..], s, row);
      assert rows == [rows[0]] + rows[1..];
    }
  }

  /** The `timestamp` column of a table. */
  function Timestamps(rows: seq<CleanRow>): (r: seq<int>)
    ensures |r| == |rows| && forall i :: 0 <= i < |rows| ==> r[i] == rows[i].event.timestamp
  {
    if rows == [] then [] else [rows[0].event.timestamp] + Timestamps(rows[1..])
  }

  /** `max` over a non-empty column. */
  function MaxOf(xs: seq<int>): (m: int)
    requires xs != []
    ensures m in xs && forall x :: x in xs ==> x <= m
  {
    if |xs| == 1 then xs[0]
    else
      var m := MaxOf(xs[1..]);
      assert forall x :: x in xs ==> x == xs[0] || x in xs[1..];
      if xs[0] >= m then xs[0] else m
  }

  /** `min` over a non-empty column. */
  function MinOf(xs: seq<int>): (m: int)
    requires xs != []
    ensures m in xs && forall x :: x in xs ==> m <= x
  {
    if |xs| == 1 then xs[0]
    else
      var m := MinOf(xs[1..]);
      assert forall x :: x in xs ==> x == xs[0] || x in xs[1..];
      if xs[0] <= m then xs[0] else m
  }

  /** One row of the grouped table: `event_count`, `latest_timestamp`, `earliest_timestamp`. */
  datatype SessionStats = SessionStats(eventCount: nat, latestTimestamp: int, earliestTimestamp: int)

  /** Folds one row into the running per-session aggregates. */
  function AddToStats(stats: map<SessionKey, SessionStats>, row: CleanRow): map<SessionKey, SessionStats> {
    var s, t := row.event.session, row.event.timestamp;
    if s in stats then
      var prev := stats[s];
      stats[s := SessionStats(prev.eventCount + 1,
                              if t > prev.latestTimestamp then t else prev.latestTimestamp,
                              if t < prev.earliestTimestamp then t else prev.earliestTimestamp)]
    else stats[s := SessionStats(1, t, t)]
  }

  /** Lines 27-30: `groupBy("session").agg(count("*"), max("timestamp"), min("timestamp"))`. */
  function GroupSessionStats(rows: seq<CleanRow>): (g: map<SessionKey, SessionStats>)
    ensures g.Keys == SessionsOf(rows)
  {
    if rows == [] then map[]
    else
      SessionsOfCons(rows);
      AddToStats(GroupSessionStats(rows[1..]), rows[0])
  }

  /** The distinct sessions of a non-empty table are its first row's and those of the rest. */
  lemma SessionsOfCons(rows: seq<CleanRow>)
    requires rows != []
    ensures SessionsOf(rows) == {rows[0].event.session} + SessionsOf(rows[1..])
  {
    assert forall row :: row in rows <==> row == rows[0] || row in rows[1..];
  }

  /** A session of the table has a non-empty group; any other key has an empty one. */
  lemma InSessionEmpty(rows: seq<CleanRow>, s: SessionKey)
    ensures InSession(rows, s) == [] <==> s !in SessionsOf(rows)
  {
    if s in SessionsOf(rows) {
      var row :| row in rows && row.event.session == s;
      assert row in InSession(rows, s);
    }
  }

  /** The max of a column with a first cell and a non-empty rest. */
  lemma MaxMinCons(t: int, ts: seq<int>)
    requires ts != []
    ensures MaxOf([t] + ts) == if t >= MaxOf(ts) then t else MaxOf(ts)
    ensures MinOf([t] + ts) == if t <= MinOf(ts) then t else MinOf(ts)
  {
    assert ([t] + ts)[1..] == ts;
  }

  /**
   * Each session of the table has one group whose count is the number of its
   * rows and whose latest and earliest timestamps are the max and min of
   * their timestamps.
   */
  lemma {:induction false} GroupSessionStatsSpec(rows: seq<CleanRow>, s: SessionKey)
    requires s in SessionsOf(rows)
    ensures InSession(rows, s) != []
    ensures GroupSessionStats(rows)[s]
         == SessionStats(|InSession(rows, s)|, MaxOf(Timestamps(InSession(rows, s))), MinOf(Timestamps(InSession(rows, s))))
  {
    InSessionEmpty(rows, s);
    var head, rest := rows[0], rows[1..];
    var prior := GroupSessionStats(rest);
    SessionsOfCons(rows);
    assert GroupSessionStats(rows) == AddToStats(prior, head);
    if head.event.session == s {
      var t := head.event.timestamp;
      var group := InSession(rest, s);
      assert InSession(rows, s) == [head] + group;
      assert Timestamps([head] + group) == [t] + Timestamps(group);
      InSessionEmpty(rest, s);
      if s in SessionsOf(rest) {
        GroupSessionStatsSpec(rest, s);
        MaxMinCons(t, Timestamps(group));
      } else {
        assert group == [];
        assert Timestamps([head] + group) == [t];
      }
    } else {
      assert InSession(rows, s) == [] + InSession(rest, s);
      assert [] + InSession(rest, s) == InSession(rest, s);
      GroupSessionStatsSpec(rest, s);
    }
  }

  /** The sessions with at least two rows. */
  function QualifyingSessions(rows: seq<CleanRow>): set<SessionKey> {
    set s | s in SessionsOf(rows) && |InSession(rows, s)| >= 2
  }

  /** Line 31: only the groups with `event_count >= 2` remain. */
  function SessionCounts(rows: seq<CleanRow>): (c: map<SessionKey, SessionStats>)
    ensures c.Keys == QualifyingSessions(rows)
    ensures forall s :: s in c ==> c[s].earliestTimestamp <= c[s].latestTimestamp
  {
    var g := GroupSessionStats(rows);
    forall s | s in g
      ensures g[s].eventCount == |InSession(rows, s)|
      ensures g[s].earliestTimestamp <= g[s].latestTimestamp
    {
      GroupSessionStatsSpec(rows, s);
    }
    map s | s in g && g[s].eventCount >= 2 :: g[s]
  }

  /** A row of `session_lengths`: the group's columns and `session_length`. */
  datatype SessionLength = SessionLength(stats: SessionStats, sessionLength: int)

  /** Lines 33-36: `session_length = latest_timestamp - earliest_timestamp`. */
  function SessionLengths(rows: seq<CleanRow>): (r: map<SessionKey, SessionLength>)
    ensures r.Keys == QualifyingSessions(rows)
    ensures forall s :: s in r ==> r[s].sessionLength >= 0
  {
    var c := SessionCounts(rows);
    map s | s in c :: SessionLength(c[s], c[s].latestTimestamp - c[s].earliestTimestamp)
  }

  /**
   * The length of a qualifying session is the spread of its timestamps; it is
   * zero exactly when all of the session's events share one timestamp.
   */
  lemma SessionLengthSpec(rows: seq<CleanRow>, s: SessionKey)
    requires s in QualifyingSessions(rows)
    ensures InSession(rows, s) != []
    ensures SessionLengths(rows)[s].sessionLength
         == MaxOf(Timestamps(InSession(rows, s))) - MinOf(Timestamps(InSession(rows, s)))
    ensures SessionLengths(rows)[s].sessionLength == 0 <==>
            forall a, b :: a in InSession(rows, s) && b in InSession(rows, s) ==> a.event.timestamp == b.event.timestamp
  {
    GroupSessionStatsSpec(rows, s);
    var group := InSession(rows, s);
    var ts := Timestamps(group);
    var lo, hi := MinOf(ts), MaxOf(ts);
    if hi - lo == 0 {
      forall a, b | a in group && b in group
        ensures a.event.timestamp == b.event.timestamp
      {
        var i :| 0 <= i < |group| && group[i] == a;
        var j :| 0 <= j < |group| && group[j] == b;
        assert ts[i] in ts && ts[j] in ts;
      }
    } else {
      var i :| 0 <= i < |ts| && ts[i] == hi;
      var j :| 0 <= j < |ts| && ts[j] == lo;
      assert group[i] in group && group[j] in group;
    }
  }

  /** Spark's `sum` for one row added to the running per-session sums. */
  function AddToSums(sums: map<SessionKey, Option<int>>, row: CleanRow): map<SessionKey, Option<int>> {
    var s := row.event.session;
    sums[s := AddSkippingNull(row.event.totalPrice, if s in sums then sums[s] else None)]
  }

  /** Line 58: `groupBy("session").agg(sum("totalPrice"))`, in cents and with no gate on the count. */
  function GroupSessionSums(rows: seq<CleanRow>): (m: map<SessionKey, Option<int>>)
    ensures m.Keys == SessionsOf(rows)
  {
    if rows == [] then map[]
    else
      SessionsOfCons(rows);
      AddToSums(GroupSessionSums(rows[1..]), rows[0])
  }

  /** Each session's sum is the null-skipping sum of the prices of its rows. */
  lemma {:induction false} GroupSessionSumsSpec(rows: seq<CleanRow>, s: SessionKey)
    requires s in SessionsOf(rows)
    ensures GroupSessionSums(rows)[s] == NullSkippingSum(Prices(InSession(rows, s)))
  {
    var head, rest := rows[0], rows[1..];
    SessionsOfCons(rows);
    assert GroupSessionSums(rows) == AddToSums(GroupSessionSums(rest), head);
    if head.event.session == s {
      var group := InSession(rest, s);
      assert InSession(rows, s) == [head] + group;
      assert Prices([head] + group) == [head.event.totalPrice] + Prices(group);
      assert ([head.event.totalPrice] + Prices(group))[1..] == Prices(group);
      InSessionEmpty(rest, s);
      if s in SessionsOf(rest) {
        GroupSessionSumsSpec(rest, s);
      } else {
        assert group == [];
      }
    } else {
      assert InSession(rows, s) == InSession(rest, s);
      GroupSessionSumsSpec(rest, s);
    }
  }

  /** A row of the bonus report: `session_length` and `sum_price_per_session` (in cents). */
  datatype BonusRow = BonusRow(sessionLength: int, sumPriceCents: Option<int>)

  /** Lines 61-62: inner join on `session`, then the selection of the two value columns. */
  function JoinOnSession(lengths: map<SessionKey, SessionLength>, sums: map<SessionKey, Option<int>>): (b: map<SessionKey, BonusRow>)
    ensures b.Keys == lengths.Keys * sums.Keys
    ensures forall s :: s in b ==> b[s].sessionLength == lengths[s].sessionLength && b[s].sumPriceCents == sums[s]
  {
    map s | s in lengths && s in sums :: BonusRow(lengths[s].sessionLength, sums[s])
  }

  /** The bonus report over the cleaned table. */
  function BonusReport(cleaned: seq<CleanRow>): (b: map<SessionKey, BonusRow>)
    ensures b.Keys == QualifyingSessions(cleaned)
    ensures forall s :: s in b ==> b[s].sessionLength >= 0
  {
    var lengths, sums := SessionLengths(cleaned), GroupSessionSums(cleaned);
    assert lengths.Keys * sums.Keys == QualifyingSessions(cleaned) by {
      assert lengths.Keys <= sums.Keys;
    }
    JoinOnSession(lengths, sums)
  }

  /**
   * The join at line 61 drops no qualifying session: both sides are grouped
   * over the same cleaned rows, so the bonus report has exactly one row per
   * session with at least two events, holding its length and its cent sum.
   * A session whose prices are all NULL stays, with a NULL sum.
   */
  lemma BonusReportSpec(cleaned: seq<CleanRow>)
    ensures BonusReport(cleaned).Keys == QualifyingSessions(cleaned)
    ensures forall s :: s in BonusReport(cleaned) ==>
              InSession(cleaned, s) != [] &&
              BonusReport(cleaned)[s] == BonusRow(
                MaxOf(Timestamps(InSession(cleaned, s))) - MinOf(Timestamps(InSession(cleaned, s))),
                NullSkippingSum(Prices(InSession(cleaned, s))))
  {
    forall s | s in BonusReport(cleaned)
      ensures InSession(cleaned, s) != []
      ensures BonusReport(cleaned)[s] == BonusRow(
                MaxOf(Timestamps(InSession(cleaned, s))) - MinOf(Timestamps(InSession(cleaned, s))),
                NullSkippingSum(Prices(InSession(cleaned, s))))
    {
      BonusRowSpec(cleaned, s);
    }
  }

  /** The bonus row of one qualifying session. */
  lemma BonusRowSpec(cleaned: seq<CleanRow>, s: SessionKey)
    requires s in QualifyingSessions(cleaned)
    ensures s in BonusReport(cleaned)
    ensures InSession(cleaned, s) != []
    ensures BonusReport(cleaned)[s] == BonusRow(
              MaxOf(Timestamps(InSession(cleaned, s))) - MinOf(Timestamps(InSession(cleaned, s))),
              NullSkippingSum(Prices(InSession(cleaned, s))))
  {
    SessionLengthSpec(cleaned, s);
    GroupSessionSumsSpec(cleaned, s);
  }

  /** A timestamp occurs in the column exactly when some row carries it. */
  lemma TimestampsMembership(rows: seq<CleanRow>, t: int)
    ensures t in Timestamps(rows) <==> exists row :: row in rows && row.event.timestamp == t
  {
    var ts := Timestamps(rows);
    if t in ts {
      var i :| 0 <= i < |ts| && ts[i] == t;
      assert rows[i] in rows;
    }
    if exists row :: row in rows && row.event.timestamp == t {
      var row :| row in rows && row.event.timestamp == t;
      var i :| 0 <= i < |rows| && rows[i] == row;
      assert ts[i] == t;
    }
  }

  /** `max` and `min` depend only on which values occur. */
  lemma MaxMinSameValues(xs: seq<int>, ys: seq<int>)
    requires xs != [] && ys != []
    requires forall x :: x in xs <==> x in ys
    ensures MaxOf(xs) == MaxOf(ys) && MinOf(xs) == MinOf(ys)
  {
  }

  /** Tables with the same multiset of rows have the same rows in every session group, as often. */
  lemma InSessionIgnoresOrder(a: seq<CleanRow>, b: seq<CleanRow>, s: SessionKey)
    requires multiset(a) == multiset(b)
    ensures multiset(InSession(a, s)) == multiset(InSession(b, s))
  {
    forall row
      ensures multiset(InSession(a, s))[row] == multiset(InSession(b, s))[row]
    {
      InSessionMultiplicity(a, s, row);
      InSessionMultiplicity(b, s, row);
    }
  }

  /** One session's count, max and min do not depend on the order of the rows. */
  lemma SessionStatsIgnoresOrder(a: seq<CleanRow>, b: seq<CleanRow>, s: SessionKey)
    requires multiset(a) == multiset(b) && s in SessionsOf(a) && s in SessionsOf(b)
    ensures GroupSessionStats(a)[s] == GroupSessionStats(b)[s]
  {
    GroupSessionStatsSpec(a, s);
    GroupSessionStatsSpec(b, s);
    var xa, xb := InSession(a, s), InSession(b, s);
    InSessionIgnoresOrder(a, b, s);
    assert |xa| == |multiset(xa)| == |multiset(xb)| == |xb|;
    forall t
      ensures t in Timestamps(xa) <==> t in Timestamps(xb)
    {
      TimestampsMembership(xa, t);
      TimestampsMembership(xb, t);
      assert forall row :: row in xa <==> row in multiset(xb);
    }
    MaxMinSameValues(Timestamps(xa), Timestamps(xb));
  }

  /**
   * Grouping does not depend on the order of the rows: tables with the same
   * multiset of rows give the same per-session count, max and min.
   */
  lemma GroupSessionStatsIgnoresOrder(a: seq<CleanRow>, b: seq<CleanRow>)
    requires multiset(a) == multiset(b)
    ensures GroupSessionStats(a) == GroupSessionStats(b)
  {
    forall row
      ensures row in a <==> row in b
    {
      assert row in a <==> row in multiset(a);
      assert row in b <==> row in multiset(b);
    }
    assert SessionsOf(a) == SessionsOf(b);
    var ga, gb := GroupSessionStats(a), GroupSessionStats(b);
    forall s | s in ga
      ensures ga[s] == gb[s]
    {
      SessionStatsIgnoresOrder(a, b, s);
    }
    assert ga.Keys == gb.Keys;
  }

  /** The per-session sums do not depend on the order of the rows. */
  lemma GroupSessionSumsIgnoresOrder(a: seq<CleanRow>, b: seq<CleanRow>)
    requires multiset(a) == multiset(b)
    ensures GroupSessionSums(a) == GroupSessionSums(b)
  {
    forall row
      ensures row in a <==> row in b
    {
      assert row in a <==> row in multiset(a);
      assert row in b <==> row in multiset(b);
    }
    assert SessionsOf(a) == SessionsOf(b);
    var ma, mb := GroupSessionSums(a), GroupSessionSums(b);
    forall s | s in ma
      ensures ma[s] == mb[s]
    {
      GroupSessionSumsSpec(a, s);
      GroupSessionSumsSpec(b, s);
      InSessionIgnoresOrder(a, b, s);
      PriceSumIgnoresOrder(InSession(a, s), InSession(b, s));
    }
    assert ma.Keys == mb.Keys;
  }

  /** The bonus report does not depend on the order of the cleaned rows. */
  lemma BonusReportIgnoresOrder(a: seq<CleanRow>, b: seq<CleanRow>)
    requires multiset(a) == multiset(b)
    ensures BonusReport(a) == BonusReport(b)
  {
    GroupSessionStatsIgnoresOrder(a, b);
    GroupSessionSumsIgnoresOrder(a, b);
    assert SessionCounts(a) == SessionCounts(b);
    assert SessionLengths(a) == SessionLengths(b);
  }
}
