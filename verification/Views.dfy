/**
 * The HTTP endpoints of orders/views.py over the store: the upload endpoint
 * (validate, then save), the per-user statistics and the daily listing.
 */
module Views {
  import opened Wrappers
  import opened Constants
  import opened Models
  import opened Serializers
  import opened Reconciler
  import opened ReconcilerFacts
  import opened Aggregates

  // ---------------------------------------------------------------------------
  // POST upload

  /** 201 with the three counts, or 400 with the error map of the failing fields. */
  datatype UploadResponse = UploadCreated(counts: Counts) | UploadRejected(errors: map<Field, FieldError>)

  /**
   * upload_orders: the batch is saved only when it validates. A rejected batch
   * answers with the validation errors and leaves the store as it was; an accepted
   * one answers with the counts `create` produced, and the store becomes the
   * reconciled one, still satisfying every integrity constraint.
   */
  method UploadOrders(db: Store, data: UploadData) returns (resp: UploadResponse, after: Store)
    requires Valid(db)
    ensures resp.UploadRejected? <==> ValidateUpload(data).Failure?
    ensures resp.UploadRejected? ==> resp.errors == ValidateUpload(data).error && after == db
    ensures resp.UploadCreated? ==>
      var user, os := Strip(data.user), TrimBatch(data.orders);
      && after == Reconciled(db, user, os)
      && Valid(after)
      && resp.counts.createdOrders == |Numbers(os) - db.orders.Keys|
      && resp.counts.createdOrders + resp.counts.updatedOrders == |os|
      && resp.counts.createdItems == TotalItems(os)
  {
    var validated := ValidateUpload(data);
    if validated.Failure? {
      return UploadRejected(validated.error), db;
    }
    var v := validated.value;
    ValidatedNeverRepeatsNew(db.orders.Keys, v.orders);
    var saved := Create(db, v);
    assert saved.Success?;
    ReconciledValid(db, v.user, v.orders);
    return UploadCreated(saved.value.counts), saved.value.store;
  }

  // ---------------------------------------------------------------------------
  // GET stats?user=

  datatype UserStats = UserStats(user: Username, ordersCount: nat, totalRevenue: Cents, avgOrderValue: Cents)

  /**
   * 200 with the statistics, 400 for a missing or blank name, 404 for an unknown
   * user, 500 when a figure has more digits than the statistics serializer's
   * decimal fields render.
   */
  datatype StatsResponse =
    | StatsOk(stats: UserStats)
    | StatsBadRequest
    | StatsNotFound(user: Username)
    | StatsFailed(user: Username)

  /** The numbers of the orders owned by `u`. */
  ghost function OwnedBy(db: Store, u: Username): (keys: set<OrderNumber>)
    ensures keys <= db.orders.Keys
  {
    set n | n in db.orders && db.orders[n].owner == u
  }

  /**
   * The revenue and the average of `u`'s orders both fit the 12-digit decimal
   * fields of the statistics serializer, which otherwise fails to render them.
   */
  ghost predicate FiguresFit(db: Store, u: Username) {
    var owned := OwnedBy(db, u);
    var revenue := SumTotals(db.orders, owned);
    FitsDigits(revenue, MaxTotalAmount) && FitsDigits(Mean(revenue, |owned|), MaxTotalAmount)
  }

  /**
   * user_stats: the `user` query parameter (absent reads as empty) is stripped;
   * a blank name is a bad request and no user is looked up; a name with no user
   * row is not found; a figure too wide for the serializer is a server error;
   * otherwise the answer carries the stripped name and the count, sum and mean of
   * that user's order totals, 0 when there are none.
   */
  ghost function UserStatsView(db: Store, param: Option<string>): (r: StatsResponse)
    ensures r.StatsBadRequest? <==> AllSpace(param.GetOr(""))
    ensures r.StatsNotFound? <==> !AllSpace(param.GetOr("")) && Strip(param.GetOr("")) !in db.users
    ensures r.StatsNotFound? ==> r.user == Strip(param.GetOr(""))
    ensures r.StatsFailed? <==>
      !AllSpace(param.GetOr("")) && Strip(param.GetOr("")) in db.users && !FiguresFit(db, Strip(param.GetOr("")))
    ensures r.StatsFailed? ==> r.user == Strip(param.GetOr(""))
    ensures r.StatsOk? ==>
      && r.stats.user == Strip(param.GetOr("")) && r.stats.user != [] && Trimmed(r.stats.user)
      && r.stats.user in db.users
      && r.stats.ordersCount == |OwnedBy(db, r.stats.user)|
      && FitsDigits(r.stats.totalRevenue, MaxTotalAmount) && FitsDigits(r.stats.avgOrderValue, MaxTotalAmount)
  {
    var username := Strip(param.GetOr(""));
    if username == [] then StatsBadRequest
    else if username !in db.users then StatsNotFound(username)
    else if !FiguresFit(db, username) then StatsFailed(username)
    else
      var owned := OwnedBy(db, username);
      var revenue := SumTotals(db.orders, owned);
      StatsOk(UserStats(username, |owned|, revenue, Mean(revenue, |owned|)))
  }

  /**
   * In a valid store every order total fits 12 digits, so the average does too:
   * the statistics fail to render exactly when the revenue outgrows 12 digits.
   */
  lemma FiguresFitIffRevenueFits(db: Store, u: Username)
    requires Valid(db)
    ensures FiguresFit(db, u) <==> FitsDigits(SumTotals(db.orders, OwnedBy(db, u)), MaxTotalAmount)
  {
    var owned := OwnedBy(db, u);
    var bound := Pow10(MaxTotalAmount) as int;
    if owned != {} {
      MeanBetween(db.orders, owned, -bound + 1, bound - 1);
    }
  }

  /** The figures of a successful answer. */
  lemma UserStatsFigures(db: Store, param: Option<string>)
    requires UserStatsView(db, param).StatsOk?
    ensures var s := UserStatsView(db, param).stats;
      var owned := OwnedBy(db, s.user);
      && s.totalRevenue == SumTotals(db.orders, owned)
      && s.avgOrderValue == Mean(s.totalRevenue, |owned|)
  {
  }

  /** A known user without orders gets zero statistics, never a not-found answer. */
  lemma UserStatsNoOrders(db: Store, u: Username)
    requires u in db.users && u != [] && Trimmed(u)
    requires forall n :: n in db.orders ==> db.orders[n].owner != u
    ensures UserStatsView(db, Some(u)) == StatsOk(UserStats(u, 0, 0, 0))
  {
    StripTrimmed(u);
    assert OwnedBy(db, u) == {};
    assert FiguresFit(db, u);
  }

  /**
   * The reported total is the sum of the user's order totals, and the reported
   * average lies between the user's smallest and largest order total.
   */
  lemma UserStatsAverageBetween(db: Store, param: Option<string>, lo: Cents, hi: Cents)
    requires UserStatsView(db, param).StatsOk?
    requires var s := UserStatsView(db, param).stats;
      && s.ordersCount > 0
      && forall n :: n in OwnedBy(db, s.user) ==> lo <= db.orders[n].totalAmount <= hi
    ensures var s := UserStatsView(db, param).stats;
      && s.totalRevenue == SumTotals(db.orders, OwnedBy(db, s.user))
      && lo <= s.avgOrderValue <= hi
  {
    var s := UserStatsView(db, param).stats;
    UserStatsFigures(db, param);
    MeanBetween(db.orders, OwnedBy(db, s.user), lo, hi);
  }

  /**
   * The statistics always pass the statistics serializer's count check, and pass
   * its revenue check whenever the user's order totals are not negative.
   */
  lemma UserStatsPassValidators(db: Store, param: Option<string>)
    requires UserStatsView(db, param).StatsOk?
    ensures var s := UserStatsView(db, param).stats;
      && ValidateOrdersCount(s.ordersCount).Success?
      && ((forall n :: n in OwnedBy(db, s.user) ==> db.orders[n].totalAmount >= 0) ==>
            ValidateTotalRevenue(s.totalRevenue).Success?)
  {
    var s := UserStatsView(db, param).stats;
    UserStatsFigures(db, param);
    if forall n :: n in OwnedBy(db, s.user) ==> db.orders[n].totalAmount >= 0 {
      SumTotalsNonNegative(db.orders, OwnedBy(db, s.user));
    }
  }

  /**
   * After a user uploads a batch, the user owns every submitted order in addition
   * to their earlier ones (an order submitted by its number changes owner), and
   * every other user keeps exactly their orders outside the batch, with the same
   * total revenue over them.
   */
  lemma OwnershipAfterUpload(db: Store, user: Username, os: seq<OrderData>, other: Username)
    requires db.items.Keys == db.orders.Keys
    requires other != user
    ensures var r := Reconciled(db, user, os);
      && OwnedBy(r, user) == OwnedBy(db, user) + Numbers(os)
      && OwnedBy(r, other) == OwnedBy(db, other) - Numbers(os)
      && SumTotals(r.orders, OwnedBy(r, other)) == SumTotals(db.orders, OwnedBy(db, other) - Numbers(os))
  {
    var r := Reconciled(db, user, os);
    forall n ensures (n in OwnedBy(r, user) <==> n in OwnedBy(db, user) + Numbers(os))
                  && (n in OwnedBy(r, other) <==> n in OwnedBy(db, other) - Numbers(os)) {
      ReconciledAt(db, user, os, n);
    }
    ReconciledFrame(db, user, os);
    SumTotalsAgree(r.orders, db.orders, OwnedBy(r, other));
  }

  lemma StripAlice()
    ensures Strip(" alice ") == "alice"
  {
    assert IsSpace(' ') && !IsSpace('a') && !IsSpace('e');
    assert " alice "[1..] == "alice ";
    assert TrimStart("alice ") == "alice ";
    assert "alice "[..5] == "alice";
    assert TrimEnd("alice") == "alice";
  }

  /** A first upload of one order into an empty store stores that order, owned by the uploader, and the uploader. */
  lemma FirstUploadStore()
    ensures var after := Reconciled(EmptyStore, "alice", [OrderData("ORD-1", 0, 10000, "new", [])]);
      && after.users == {"alice"}
      && after.orders == map["ORD-1" := Order("alice", 0, 10000, "new")]
  {
    var os := [OrderData("ORD-1", 0, 10000, "new", [])];
    var after := Reconciled(EmptyStore, "alice", os);
    assert Numbers(os) == {"ORD-1"} by {
      assert os[..0] == [];
    }
    assert !HasDuplicateNumbers(os);
    ReconciledEntry(EmptyStore, "alice", os, 0);
    ReconciledFrame(EmptyStore, "alice", os);
    MapsEqual(after.orders, map["ORD-1" := Order("alice", 0, 10000, "new")]);
  }

  /** A store whose only order is alice's order of 100.00 gives her one order, 100.00 revenue, 100.00 average. */
  lemma SingleOrderStats(db: Store)
    requires db.users == {"alice"} && db.orders == map["ORD-1" := Order("alice", 0, 10000, "new")]
    ensures UserStatsView(db, Some(" alice ")) == StatsOk(UserStats("alice", 1, 10000, 10000))
  {
    var owned := OwnedBy(db, "alice");
    assert "ORD-1" in owned;
    assert owned == {"ORD-1"} by {
      forall n | n in owned ensures n == "ORD-1" {
        assert n in db.orders.Keys;
      }
    }
    SumTotalsSingleton(db.orders, "ORD-1");
    assert FiguresFit(db, "alice") by {
      LargestTotalAmount();
    }
    StripAlice();
  }

  /** A first upload of one order of 100.00 by alice: her statistics are one order, 100.00 revenue, 100.00 average. */
  lemma FirstUploadStats()
    ensures var after := Reconciled(EmptyStore, "alice", [OrderData("ORD-1", 0, 10000, "new", [])]);
      UserStatsView(after, Some(" alice ")) == StatsOk(UserStats("alice", 1, 10000, 10000))
  {
    FirstUploadStore();
    SingleOrderStats(Reconciled(EmptyStore, "alice", [OrderData("ORD-1", 0, 10000, "new", [])]));
  }

  // ---------------------------------------------------------------------------
  // GET daily_stats

  /** How many snapshot rows the listing returns at most. */
  const ListingLimit: nat := 30

  ghost function PickDate(dates: set<Date>): (x: Date)
    requires dates != {}
    ensures x in dates
  {
    if x :| x in dates then x else assert false; 0
  }

  /** The greatest date of a non-empty set. */
  ghost function MaxDate(dates: set<Date>): (m: Date)
    requires dates != {}
    ensures m in dates && forall d :: d in dates ==> d <= m
    decreases dates
  {
    var x := PickDate(dates);
    if dates == {x} then x
    else
      var rest := MaxDate(dates - {x});
      assert forall d :: d in dates ==> d == x || d in dates - {x};
      if x < rest then rest else x
  }

  /**
   * The `limit` newest dates (all of them when there are fewer), newest first:
   * strictly decreasing, and every date left out is older than every date
   * listed.
   */
  ghost function NewestDates(dates: set<Date>, limit: nat): (r: seq<Date>)
    ensures |r| == if limit < |dates| then limit else |dates|
    ensures forall i :: 0 <= i < |r| ==> r[i] in dates
    ensures forall i, j :: 0 <= i < j < |r| ==> r[i] > r[j]
    ensures forall d, i :: d in dates && 0 <= i < |r| && d >= r[i] ==> d in r
    decreases limit
  {
    if limit == 0 || dates == {} then []
    else
      var m := MaxDate(dates);
      var rest := NewestDates(dates - {m}, limit - 1);
      PrependNewest(dates, m, rest);
      [m] + rest
  }

  /** Putting the greatest date in front of the newest of the others gives the newest of all. */
  lemma PrependNewest(dates: set<Date>, m: Date, rest: seq<Date>)
    requires m in dates && forall d :: d in dates ==> d <= m
    requires forall i :: 0 <= i < |rest| ==> rest[i] in dates - {m}
    requires forall i, j :: 0 <= i < j < |rest| ==> rest[i] > rest[j]
    requires forall d, i :: d in dates - {m} && 0 <= i < |rest| && d >= rest[i] ==> d in rest
    ensures var r := [m] + rest;
      && (forall i :: 0 <= i < |r| ==> r[i] in dates)
      && (forall i, j :: 0 <= i < j < |r| ==> r[i] > r[j])
      && (forall d, i :: d in dates && 0 <= i < |r| && d >= r[i] ==> d in r)
  {
    var r := [m] + rest;
    forall i | 0 < i < |r| ensures r[i] == rest[i - 1] && r[i] < m {
      assert rest[i - 1] in dates - {m};
    }
    forall d, i | d in dates && 0 <= i < |r| && d >= r[i] ensures d in r {
      if d != m {
        assert i > 0 && r[i] == rest[i - 1];
        assert d in rest;
      }
    }
  }

  /** daily_stats: the stored snapshot rows of the newest dates, newest first. */
  ghost function DailyStatsListing(db: Store): (rows: seq<DailyOrderStats>)
    ensures |rows| <= ListingLimit
  {
    var dates := NewestDates(db.dailyStats.Keys, ListingLimit);
    seq(|dates|, i requires 0 <= i < |dates| => db.dailyStats[dates[i]])
  }

  /**
   * When every snapshot row is stored under its own date (as in a valid store),
   * the listing holds min(30, rows stored) rows, each a stored row, sorted by
   * date strictly descending, and every stored row at least as new as a listed
   * one is listed.
   */
  lemma DailyStatsListingNewest(db: Store)
    requires forall d :: d in db.dailyStats ==> db.dailyStats[d].date == d
    ensures var rows := DailyStatsListing(db);
      && |rows| == (if ListingLimit < |db.dailyStats| then ListingLimit else |db.dailyStats|)
      && (forall i :: 0 <= i < |rows| ==> rows[i].date in db.dailyStats && db.dailyStats[rows[i].date] == rows[i])
      && (forall i, j :: 0 <= i < j < |rows| ==> rows[i].date > rows[j].date)
      && (forall d, i :: d in db.dailyStats && 0 <= i < |rows| && d >= rows[i].date ==> db.dailyStats[d] in rows)
  {
    var rows := DailyStatsListing(db);
    assert |db.dailyStats.Keys| == |db.dailyStats|;
    forall i | 0 <= i < |rows| ensures rows[i].date in db.dailyStats && db.dailyStats[rows[i].date] == rows[i] {
      ListedRow(db, i);
    }
    forall i, j | 0 <= i < j < |rows| ensures rows[i].date > rows[j].date {
      ListedRow(db, i);
      ListedRow(db, j);
    }
    forall d, i | d in db.dailyStats && 0 <= i < |rows| && d >= rows[i].date ensures db.dailyStats[d] in rows {
      ListedWhenNewer(db, d, i);
    }
  }

  /** The `i`th listed row is the one stored under the `i`th newest date. */
  lemma ListedRow(db: Store, i: nat)
    requires forall d :: d in db.dailyStats ==> db.dailyStats[d].date == d
    requires i < |DailyStatsListing(db)|
    ensures var dates := NewestDates(db.dailyStats.Keys, ListingLimit);
      && i < |dates| && dates[i] in db.dailyStats
      && DailyStatsListing(db)[i] == db.dailyStats[dates[i]]
      && DailyStatsListing(db)[i].date == dates[i]
  {
  }

  lemma ListedWhenNewer(db: Store, d: Date, i: nat)
    requires forall d :: d in db.dailyStats ==> db.dailyStats[d].date == d
    requires d in db.dailyStats && i < |DailyStatsListing(db)| && d >= DailyStatsListing(db)[i].date
    ensures db.dailyStats[d] in DailyStatsListing(db)
  {
    var dates := NewestDates(db.dailyStats.Keys, ListingLimit);
    ListedRow(db, i);
    assert d in dates;
    var k :| 0 <= k < |dates| && dates[k] == d;
    ListedRow(db, k);
  }
}
