/**
 * The four tables of the order service (orders/models.py) as one in-memory store.
 * Every table is keyed by its unique column: users by username, orders by their
 * global order number, the items of an order by that order's number, and daily
 * statistics rows by their date.
 */
module Models {
  import opened Constants

  type Username = string
  type OrderNumber = string
  /** Money in integer cents (two decimal places, never floating point). */
  type Cents = int
  /** Instants in microseconds since the epoch, UTC. */
  type Timestamp = int
  /** Calendar days since the epoch, UTC. */
  type Date = int

  /** One line of an order (model OrderItem without its foreign key). */
  datatype Item = Item(sku: string, name: string, quantity: int, price: Cents)

  /** One order row (model Order); its order number is its key in the store. */
  datatype Order = Order(owner: Username, createdAt: Timestamp, totalAmount: Cents, status: string)

  /** One snapshot row (model DailyOrderStats). */
  datatype DailyOrderStats = DailyOrderStats(
    date: Date,
    totalUsers: nat,
    totalOrders: nat,
    totalRevenue: Cents,
    avgOrderValue: Cents,
    createdAt: Timestamp)

  datatype Store = Store(
    users: set<Username>,
    orders: map<OrderNumber, Order>,
    items: map<OrderNumber, seq<Item>>,
    dailyStats: map<Date, DailyOrderStats>)

  const EmptyStore := Store({}, map[], map[], map[])

  predicate UsernameFits(u: Username) {
    |u| <= MaxUsernameLength
  }

  /** The column bounds of an order row. */
  predicate OrderFits(n: OrderNumber, status: string, totalAmount: Cents) {
    && |n| <= MaxOrderNumber
    && |status| <= MaxStatusLength
    && FitsDigits(totalAmount, MaxTotalAmount)
  }

  /** The column bounds of an item row; the quantity column is a positive-integer field, so 0 or more. */
  predicate ItemFits(it: Item) {
    && |it.sku| <= MaxSkuLength
    && |it.name| <= MaxOrderItemName
    && it.quantity >= 0
    && FitsDigits(it.price, MaxPriceDigits)
  }

  predicate ItemsFit(items: seq<Item>) {
    forall k :: 0 <= k < |items| ==> ItemFits(items[k])
  }

  /** The column bounds of a snapshot row; its counts are naturals by type. */
  predicate DailyStatsFits(s: DailyOrderStats) {
    && FitsDigits(s.totalRevenue, MaxTotalAmount)
    && FitsDigits(s.avgOrderValue, MaxPriceDigits)
  }

  /**
   * The store's integrity constraints: column bounds, every order owned by an
   * existing user, every item list belonging to an existing order and every order
   * having one (no orphans), and each snapshot stored under its own date.
   * Uniqueness of usernames, order numbers and dates is the keying itself.
   */
  ghost predicate Valid(db: Store) {
    && (forall u :: u in db.users ==> UsernameFits(u))
    && (forall n :: n in db.orders ==>
          OrderFits(n, db.orders[n].status, db.orders[n].totalAmount) && db.orders[n].owner in db.users)
    && db.items.Keys == db.orders.Keys
    && (forall n :: n in db.items ==> ItemsFit(db.items[n]))
    && (forall d :: d in db.dailyStats ==> db.dailyStats[d].date == d && DailyStatsFits(db.dailyStats[d]))
  }

  /** Replacing the snapshots of a valid store by snapshots that fit and sit under their own dates keeps it valid. */
  lemma ValidWithStats(db: Store, stats: map<Date, DailyOrderStats>)
    requires Valid(db)
    requires forall d :: d in stats ==> stats[d].date == d && DailyStatsFits(stats[d])
    ensures Valid(db.(dailyStats := stats))
  {
  }

  /** Deleting an order deletes its items with it (on_delete=CASCADE). */
  function DeleteOrder(db: Store, n: OrderNumber): (r: Store)
    ensures n !in r.orders && n !in r.items
    ensures r.orders.Keys == db.orders.Keys - {n}
    ensures forall m :: m in r.orders ==> r.orders[m] == db.orders[m]
    ensures r.items.Keys == db.items.Keys - {n}
    ensures forall m :: m in r.items ==> r.items[m] == db.items[m]
    ensures r.users == db.users && r.dailyStats == db.dailyStats
    ensures Valid(db) ==> Valid(r)
  {
    db.(orders := db.orders - {n}, items := db.items - {n})
  }

  /** Deleting a user deletes that user's orders and, through them, their items. */
  function DeleteUser(db: Store, u: Username): (r: Store)
    ensures r.users == db.users - {u}
    ensures forall n :: n in r.orders <==> n in db.orders && db.orders[n].owner != u
    ensures forall n :: n in r.orders ==> r.orders[n] == db.orders[n]
    ensures forall n :: n in r.items <==> n in db.items && n in r.orders
    ensures forall n :: n in r.items ==> r.items[n] == db.items[n]
    ensures r.dailyStats == db.dailyStats
    ensures Valid(db) ==> Valid(r)
  {
    var kept := set n | n in db.orders && db.orders[n].owner != u;
    Store(
      db.users - {u},
      map n | n in kept :: db.orders[n],
      map n | n in kept && n in db.items :: db.items[n],
      db.dailyStats)
  }
}
