/**
 * The daily_order_stats task (orders/tasks.py): once a day it takes yesterday's
 * date, does nothing when a snapshot for that date is stored, and otherwise
 * inserts one snapshot row aggregating the orders created during that day.
 *
 * Time is UTC (the service's TIME_ZONE), so a day is a fixed window of
 * microseconds; the clock reading is the parameter `now`.
 */
module DailyTask {
  import opened Constants
  import opened Models
  import opened Aggregates

  const MicrosPerDay: int := 86_400_000_000

  /** The calendar day an instant falls on: the day whose window holds it. */
  function DayOf(t: Timestamp): (d: Date)
    ensures d * MicrosPerDay <= t < d * MicrosPerDay + MicrosPerDay
  {
    t / MicrosPerDay
  }

  /** The first instant of day `d` (its date combined with midnight). */
  function WindowStart(d: Date): Timestamp {
    d * MicrosPerDay
  }

  /** The last instant of day `d` (its date combined with 23:59:59.999999). */
  function WindowEnd(d: Date): Timestamp {
    d * MicrosPerDay + MicrosPerDay - 1
  }

  /** The `created_at__range` filter: both bounds are included. */
  predicate InWindow(t: Timestamp, d: Date) {
    WindowStart(d) <= t <= WindowEnd(d)
  }

  /** The inclusive window of a day holds exactly the instants falling on that day. */
  lemma InWindowIff(t: Timestamp, d: Date)
    ensures InWindow(t, d) <==> DayOf(t) == d
  {
    var e := DayOf(t);
    if e < d {
      assert e * MicrosPerDay + MicrosPerDay <= d * MicrosPerDay by { MulStep(e, d); }
    } else if e > d {
      assert d * MicrosPerDay + MicrosPerDay <= e * MicrosPerDay by { MulStep(d, e); }
    }
  }

  lemma MulStep(a: int, b: int)
    requires a < b
    ensures a * MicrosPerDay + MicrosPerDay <= b * MicrosPerDay
  {
    assert b * MicrosPerDay == a * MicrosPerDay + (b - a) * MicrosPerDay;
  }

  /**
   * stats_date: yesterday. Its window is the last whole day that ended before
   * `now`: it ends before `now`, and `now` is at most one day after it ends.
   */
  function TargetDate(now: Timestamp): (d: Date)
    ensures WindowEnd(d) < now
    ensures now <= WindowEnd(d) + MicrosPerDay
    ensures DayOf(now) == d + 1
  {
    DayOf(now) - 1
  }

  /** The orders whose created_at lies in day `d`'s window. */
  ghost function WindowOrders(db: Store, d: Date): (w: set<OrderNumber>)
    ensures w <= db.orders.Keys
  {
    set n | n in db.orders && InWindow(db.orders[n].createdAt, d)
  }

  /** The users (distinct) owning at least one order in day `d`'s window. */
  ghost function ActiveUsers(db: Store, d: Date): set<Username> {
    db.users * Owners(db.orders, WindowOrders(db, d))
  }

  /**
   * The row the job inserts for day `d`: count, sum and mean of the window's
   * totals (the sums 0 for an empty window), the number of active users, and the
   * insertion time. There are never more active users than orders.
   */
  ghost function SnapshotRow(db: Store, d: Date, now: Timestamp): (s: DailyOrderStats)
    ensures s.date == d && s.createdAt == now
    ensures s.totalUsers <= s.totalOrders
    ensures s.totalOrders == 0 ==> s.totalUsers == 0 && s.totalRevenue == 0 && s.avgOrderValue == 0
  {
    var w := WindowOrders(db, d);
    OwnersBound(db.orders, w);
    SubsetSize(ActiveUsers(db, d), Owners(db.orders, w));
    var sum := SumTotals(db.orders, w);
    DailyOrderStats(d, |ActiveUsers(db, d)|, |w|, sum, Mean(sum, |w|), now)
  }

  lemma {:induction false} SubsetSize<T>(a: set<T>, b: set<T>)
    requires a <= b
    ensures |a| <= |b|
    decreases b
  {
    if a != {} {
      var x :| x in a;
      SubsetSize(a - {x}, b - {x});
    }
  }

  /** The daily job's message: the row existed, was created, or the computation raised. */
  datatype TaskOutcome = AlreadyExists(date: Date) | StatsCreated(date: Date) | TaskFailed(date: Date)

  datatype TaskRun = TaskRun(outcome: TaskOutcome, store: Store)

  /**
   * One run of daily_order_stats at instant `now`. The model assumes that the
   * database refuses a row that does not fit its decimal columns (a sum beyond 12
   * digits or a mean beyond 10), as a backend enforcing numeric precision does;
   * a backend that stores such values unchecked (SQLite) would insert the row.
   * On a refusal the job re-raises and nothing is stored.
   */
  ghost function DailyOrderStatsTask(db: Store, now: Timestamp): (r: TaskRun)
    ensures r.outcome.date == TargetDate(now)
    ensures r.store.users == db.users && r.store.orders == db.orders && r.store.items == db.items
  {
    var d := TargetDate(now);
    if d in db.dailyStats then TaskRun(AlreadyExists(d), db)
    else
      var row := SnapshotRow(db, d, now);
      if !DailyStatsFits(row) then TaskRun(TaskFailed(d), db)
      else TaskRun(StatsCreated(d), db.(dailyStats := db.dailyStats[d := row]))
  }

  /**
   * The job inserts a row exactly when none is stored for yesterday and the
   * computed row fits; it then adds that one row and nothing else. In every other
   * case the store is unchanged.
   */
  lemma TaskEffect(db: Store, now: Timestamp)
    ensures var d, r := TargetDate(now), DailyOrderStatsTask(db, now);
      && (r.outcome.StatsCreated? <==> d !in db.dailyStats && DailyStatsFits(SnapshotRow(db, d, now)))
      && (r.outcome.AlreadyExists? <==> d in db.dailyStats)
      && (r.outcome.StatsCreated? ==>
            r.store.dailyStats.Keys == db.dailyStats.Keys + {d}
            && r.store.dailyStats[d] == SnapshotRow(db, d, now)
            && forall e :: e in db.dailyStats ==> r.store.dailyStats[e] == db.dailyStats[e])
      && (!r.outcome.StatsCreated? ==> r.store == db)
  {
  }

  /**
   * Idempotence: once a run stored or found yesterday's row, any later run for
   * the same date finds it and changes nothing, so the date holds one row.
   */
  lemma TaskIdempotent(db: Store, now: Timestamp, later: Timestamp)
    requires TargetDate(later) == TargetDate(now)
    requires !DailyOrderStatsTask(db, now).outcome.TaskFailed?
    ensures var r1 := DailyOrderStatsTask(db, now);
      && TargetDate(now) in r1.store.dailyStats
      && DailyOrderStatsTask(r1.store, later) == TaskRun(AlreadyExists(TargetDate(now)), r1.store)
  {
  }

  /** A run keeps every integrity constraint of the store. */
  lemma TaskValid(db: Store, now: Timestamp)
    requires Valid(db)
    ensures Valid(DailyOrderStatsTask(db, now).store)
  {
    var d := TargetDate(now);
    if d !in db.dailyStats {
      var row := SnapshotRow(db, d, now);
      if DailyStatsFits(row) {
        ValidWithStats(db, db.dailyStats[d := row]);
      }
    }
  }

  /** total_orders counts exactly the orders created on the target day. */
  lemma SnapshotCountsDay(db: Store, now: Timestamp, n: OrderNumber)
    requires n in db.orders
    ensures n in WindowOrders(db, TargetDate(now)) <==> DayOf(db.orders[n].createdAt) == DayOf(now) - 1
  {
    InWindowIff(db.orders[n].createdAt, TargetDate(now));
  }

  /**
   * An order of 10^8 units fits its total_amount column (12 digits) but not the
   * snapshot's avg_order_value column (10 digits): when it is yesterday's only
   * order the job fails and stores nothing, on a database that refuses the value.
   */
  lemma LargeOrderFailsTask(now: Timestamp)
    ensures var d := TargetDate(now);
      var big := 10_000_000_000;
      var db := Store({"alice"}, map["N1" := Order("alice", WindowStart(d), big, "new")], map["N1" := []], map[]);
      && Valid(db)
      && DailyOrderStatsTask(db, now) == TaskRun(TaskFailed(d), db)
  {
    var d := TargetDate(now);
    var big := 10_000_000_000;
    var db := Store({"alice"}, map["N1" := Order("alice", WindowStart(d), big, "new")], map["N1" := []], map[]);
    assert FitsDigits(big, MaxTotalAmount) by { LargestTotalAmount(); }
    assert WindowOrders(db, d) == {"N1"};
    SumTotalsSingleton(db.orders, "N1");
    assert Pow10(MaxPriceDigits) == 10_000_000_000;
    assert !DailyStatsFits(SnapshotRow(db, d, now));
  }
}
