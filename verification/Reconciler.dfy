/**
 * OrderUploadSerializer.create (orders/serializers.py): inside one transaction,
 * get-or-create the user, classify every submitted order as an update (its
 * number is already stored) or a create, delete the stored items of each
 * submitted order, then bulk-insert the new orders, bulk-update the existing
 * ones and bulk-insert all submitted items.
 *
 * `Reconciled` states declaratively what the store holds afterwards; `Create`
 * follows the source step by step and is proved to produce it.
 */
module Reconciler {
  import opened Wrappers
  import opened Models
  import opened Serializers

  /** An order row waiting for a bulk insert or update, with its number. */
  datatype Staged = Staged(number: OrderNumber, row: Order)

  /** An item waiting for the bulk insert, with the number of its order. */
  datatype QueuedItem = QueuedItem(order: OrderNumber, item: Item)

  datatype Counts = Counts(createdOrders: nat, updatedOrders: nat, createdItems: nat)

  /** The store refused the insert: an order number would be stored twice. */
  datatype PersistenceError = UniqueViolation

  datatype Persisted = Persisted(store: Store, counts: Counts)

  /** The row a submitted order becomes, owned by the uploading user. */
  function RowOf(user: Username, o: OrderData): Order {
    Order(user, o.createdAt, o.totalAmount, o.status)
  }

  // ---------------------------------------------------------------------------
  // What the batch says about one order number

  function Numbers(os: seq<OrderData>): (r: set<OrderNumber>)
    ensures forall i :: 0 <= i < |os| ==> os[i].number in r
    ensures forall n :: n in r ==> exists i :: 0 <= i < |os| && os[i].number == n
  {
    if os == [] then {}
    else
      var r := Numbers(os[..|os| - 1]) + {os[|os| - 1].number};
      assert forall n :: n in r ==> exists i :: 0 <= i < |os| && os[i].number == n by {
        forall n | n in r ensures exists i :: 0 <= i < |os| && os[i].number == n {
          if n != os[|os| - 1].number {
            var i :| 0 <= i < |os| - 1 && os[..|os| - 1][i].number == n;
            assert os[i].number == n;
          }
        }
      }
      r
  }

  /** The last entry of the batch with number `n`: its values are the ones that stay. */
  function LastWith(os: seq<OrderData>, n: OrderNumber): (o: OrderData)
    requires n in Numbers(os)
    ensures o in os && o.number == n
  {
    if os[|os| - 1].number == n then os[|os| - 1] else LastWith(os[..|os| - 1], n)
  }

  /** `LastWith` picks an entry numbered `n` that no later entry shares its number with. */
  lemma LastWithIsLast(os: seq<OrderData>, n: OrderNumber)
    requires n in Numbers(os)
    ensures exists k :: 0 <= k < |os| && os[k] == LastWith(os, n) && forall j :: k < j < |os| ==> os[j].number != n
  {
    var k := LastWithIndex(os, n);
  }

  /** The position of the entry `LastWith` picks. */
  lemma {:induction false} LastWithIndex(os: seq<OrderData>, n: OrderNumber) returns (k: nat)
    requires n in Numbers(os)
    ensures k < |os| && os[k] == LastWith(os, n)
    ensures forall j :: k < j < |os| ==> os[j].number != n
  {
    if os[|os| - 1].number == n {
      k := |os| - 1;
    } else {
      var init := os[..|os| - 1];
      k := LastWithIndex(init, n);
      assert os[k] == init[k];
      forall j | k < j < |os| ensures os[j].number != n {
        if j < |init| {
          assert init[j] == os[j];
        }
      }
    }
  }

  /** All items submitted for number `n`, in batch order. */
  function ItemsFor(os: seq<OrderData>, n: OrderNumber): (items: seq<Item>)
    ensures n !in Numbers(os) ==> items == []
  {
    if os == [] then []
    else ItemsFor(os[..|os| - 1], n) + (if os[|os| - 1].number == n then os[|os| - 1].items else [])
  }

  /** Some entry numbered `n` carries the item `x`. */
  ghost predicate Carries(os: seq<OrderData>, n: OrderNumber, x: Item) {
    exists k :: 0 <= k < |os| && os[k].number == n && x in os[k].items
  }

  /** An item is submitted for `n` exactly when some entry numbered `n` carries it. */
  lemma {:induction false} ItemsForMembers(os: seq<OrderData>, n: OrderNumber, x: Item)
    ensures x in ItemsFor(os, n) <==> exists k :: 0 <= k < |os| && os[k].number == n && x in os[k].items
  {
    if os != [] {
      var init, last := os[..|os| - 1], os[|os| - 1];
      ItemsForMembers(init, n, x);
      assert ItemsFor(os, n) == ItemsFor(init, n) + (if last.number == n then last.items else []);
      CarriesSnoc(os, n, x);
    }
  }

  /** An entry carrying `x` for `n` is one of the earlier entries or the last one. */
  lemma CarriesSnoc(os: seq<OrderData>, n: OrderNumber, x: Item)
    requires os != []
    ensures Carries(os, n, x) <==>
      Carries(os[..|os| - 1], n, x) || (os[|os| - 1].number == n && x in os[|os| - 1].items)
  {
    var init := os[..|os| - 1];
    if Carries(init, n, x) {
      var k :| 0 <= k < |init| && init[k].number == n && x in init[k].items;
      assert os[k] == init[k];
    }
    if Carries(os, n, x) {
      var k :| 0 <= k < |os| && os[k].number == n && x in os[k].items;
      if k < |init| {
        assert init[k] == os[k];
      }
    }
  }

  /** The number of submitted items, over all orders of the batch. */
  function TotalItems(os: seq<OrderData>): nat {
    if os == [] then 0 else TotalItems(os[..|os| - 1]) + |os[|os| - 1].items|
  }

  /** Two entries carry the same order number, and that number is not stored yet. */
  ghost predicate RepeatsNew(existing: set<OrderNumber>, os: seq<OrderData>) {
    exists i, j :: 0 <= i < j < |os| && os[i].number == os[j].number && os[i].number !in existing
  }

  /**
   * The store after a successful upload of `os` for `user`: the user exists, every
   * submitted number holds the values of its (last) entry, owned by `user`, with
   * exactly the items submitted for it, and everything else is as before.
   */
  function Reconciled(db: Store, user: Username, os: seq<OrderData>): Store {
    var nums := Numbers(os);
    Store(
      db.users + {user},
      map n | n in db.orders.Keys + nums :: if n in nums then RowOf(user, LastWith(os, n)) else db.orders[n],
      map n | n in db.orders.Keys + nums ::
        if n in nums then ItemsFor(os, n) else if n in db.items then db.items[n] else [],
      db.dailyStats)
  }

  lemma MapsEqual<K, V>(a: map<K, V>, b: map<K, V>)
    requires forall k :: (k in a <==> k in b) && (k in a ==> a[k] == b[k])
    ensures a == b
  {
  }

  /** The reconciled store, one order number at a time. */
  lemma ReconciledAt(db: Store, user: Username, os: seq<OrderData>, n: OrderNumber)
    ensures var r := Reconciled(db, user, os);
      && (n in r.orders <==> n in db.orders || n in Numbers(os))
      && (n in r.items <==> n in db.orders || n in Numbers(os))
      && (n in Numbers(os) ==> r.orders[n] == RowOf(user, LastWith(os, n)) && r.items[n] == ItemsFor(os, n))
      && (n !in Numbers(os) && n in db.orders ==>
            r.orders[n] == db.orders[n] && r.items[n] == if n in db.items then db.items[n] else [])
  {
  }

  // ---------------------------------------------------------------------------
  // The plans `create` accumulates while it walks the batch

  function PlanCreates(existing: set<OrderNumber>, user: Username, os: seq<OrderData>): seq<Staged> {
    if os == [] then []
    else
      var p := PlanCreates(existing, user, os[..|os| - 1]);
      var o := os[|os| - 1];
      if o.number in existing then p else p + [Staged(o.number, RowOf(user, o))]
  }

  function PlanUpdates(existing: set<OrderNumber>, user: Username, os: seq<OrderData>): seq<Staged> {
    if os == [] then []
    else
      var p := PlanUpdates(existing, user, os[..|os| - 1]);
      var o := os[|os| - 1];
      if o.number in existing then p + [Staged(o.number, RowOf(user, o))] else p
  }

  /** The item rows one submitted order queues: each of its items, tied to its number. */
  function QueueOf(o: OrderData): (q: seq<QueuedItem>)
    ensures |q| == |o.items|
    ensures forall k :: 0 <= k < |q| ==> q[k] == QueuedItem(o.number, o.items[k])
  {
    seq(|o.items|, k requires 0 <= k < |o.items| => QueuedItem(o.number, o.items[k]))
  }

  function PlanItems(os: seq<OrderData>): seq<QueuedItem> {
    if os == [] then [] else PlanItems(os[..|os| - 1]) + QueueOf(os[|os| - 1])
  }

  // ---------------------------------------------------------------------------
  // The store's bulk statements

  function StagedNumbers(ss: seq<Staged>): (r: seq<OrderNumber>)
    ensures |r| == |ss| && forall i :: 0 <= i < |ss| ==> r[i] == ss[i].number
  {
    seq(|ss|, i requires 0 <= i < |ss| => ss[i].number)
  }

  /** The row a staged list leaves for `n`: the last one staged for it, if any. */
  function Assigned(ss: seq<Staged>, n: OrderNumber): Option<Order> {
    if ss == [] then None
    else if ss[|ss| - 1].number == n then Some(ss[|ss| - 1].row)
    else Assigned(ss[..|ss| - 1], n)
  }

  lemma {:induction false} AssignedIffStaged(ss: seq<Staged>, n: OrderNumber)
    ensures Assigned(ss, n).Some? <==> n in StagedNumbers(ss)
  {
    if ss != [] {
      var init := ss[..|ss| - 1];
      AssignedIffStaged(init, n);
      assert StagedNumbers(ss) == StagedNumbers(init) + [ss[|ss| - 1].number];
    }
  }

  /** Whether some staged row names a number stored in `m`. */
  predicate StagesStored(m: map<OrderNumber, Order>, ss: seq<Staged>) {
    exists i :: 0 <= i < |ss| && ss[i].number in m
  }

  /** The store refuses a bulk insert that repeats a stored number or one of its own. */
  predicate Clashes(m: map<OrderNumber, Order>, ss: seq<Staged>) {
    StagesStored(m, ss) || HasRepeat(StagedNumbers(ss))
  }

  /**
   * `bulk_create` of order rows: every row is inserted, or, when one of them
   * would repeat a stored number or another inserted number, none is.
   */
  function BulkCreateOrders(m: map<OrderNumber, Order>, ss: seq<Staged>): Result<map<OrderNumber, Order>, PersistenceError> {
    if ss == [] then Success(m)
    else
      var s := ss[|ss| - 1];
      match BulkCreateOrders(m, ss[..|ss| - 1])
      case Failure(e) => Failure(e)
      case Success(p) =>
        if s.number in p then Failure(UniqueViolation) else Success(p[s.number := s.row])
  }

  /** `bulk_update` of order rows: each stored row named in the list takes its last staged values. */
  function BulkUpdateOrders(m: map<OrderNumber, Order>, ss: seq<Staged>): map<OrderNumber, Order> {
    if ss == [] then m
    else
      var p := BulkUpdateOrders(m, ss[..|ss| - 1]);
      var s := ss[|ss| - 1];
      if s.number in p then p[s.number := s.row] else p
  }

  /** `bulk_create` of items: each queued item is appended to its order's items. */
  function BulkCreateItems(m: map<OrderNumber, seq<Item>>, qs: seq<QueuedItem>): map<OrderNumber, seq<Item>> {
    if qs == [] then m
    else
      var p := BulkCreateItems(m, qs[..|qs| - 1]);
      var q := qs[|qs| - 1];
      p[q.order := (if q.order in p then p[q.order] else []) + [q.item]]
  }

  /** The items queued for order `n`, in queue order. */
  function QueuedFor(qs: seq<QueuedItem>, n: OrderNumber): seq<Item> {
    if qs == [] then []
    else QueuedFor(qs[..|qs| - 1], n) + (if qs[|qs| - 1].order == n then [qs[|qs| - 1].item] else [])
  }

  lemma {:induction false} HasRepeatSnoc<T>(s: seq<T>, x: T)
    ensures HasRepeat(s + [x]) <==> HasRepeat(s) || x in s
  {
    var t := s + [x];
    if HasRepeat(t) {
      var i, j :| 0 <= i < j < |t| && t[i] == t[j];
      if j < |s| { assert s[i] == s[j]; } else { assert s[i] == x; }
    }
    if HasRepeat(s) {
      var i, j :| 0 <= i < j < |s| && s[i] == s[j];
      assert t[i] == t[j];
    }
    if x in s {
      var i :| 0 <= i < |s| && s[i] == x;
      assert t[i] == t[|s|];
    }
  }

  lemma StagesStoredSnoc(m: map<OrderNumber, Order>, ss: seq<Staged>)
    requires ss != []
    ensures StagesStored(m, ss) <==> StagesStored(m, ss[..|ss| - 1]) || ss[|ss| - 1].number in m
  {
    var init := ss[..|ss| - 1];
    if i :| 0 <= i < |ss| && ss[i].number in m {
      if i < |init| { assert init[i] == ss[i]; }
    }
    if i :| 0 <= i < |init| && init[i].number in m { assert ss[i] == init[i]; }
  }

  /** A bulk insert fails exactly when one of its rows repeats a stored number or another of its numbers. */
  lemma {:induction false} BulkCreateOrdersFails(m: map<OrderNumber, Order>, ss: seq<Staged>)
    ensures BulkCreateOrders(m, ss).Failure? <==> StagesStored(m, ss) || HasRepeat(StagedNumbers(ss))
  {
    if ss != [] {
      var init := ss[..|ss| - 1];
      var s := ss[|ss| - 1];
      BulkCreateOrdersFails(m, init);
      BulkCreateOrdersAdds(m, init);
      assert StagedNumbers(ss) == StagedNumbers(init) + [s.number];
      HasRepeatSnoc(StagedNumbers(init), s.number);
      AssignedIffStaged(init, s.number);
      StagesStoredSnoc(m, ss);
    }
  }

  /** A successful bulk insert adds the staged rows and changes no stored row. */
  lemma {:induction false} BulkCreateOrdersAdds(m: map<OrderNumber, Order>, ss: seq<Staged>)
    ensures BulkCreateOrders(m, ss).Success? ==>
      var r := BulkCreateOrders(m, ss).value;
      && (forall n :: n in r <==> n in m || Assigned(ss, n).Some?)
      && (forall n :: n in m ==> r[n] == m[n])
      && (forall n :: Assigned(ss, n).Some? ==> r[n] == Assigned(ss, n).value)
  {
    if ss != [] {
      BulkCreateOrdersAdds(m, ss[..|ss| - 1]);
    }
  }

  /** A bulk insert fails exactly when it clashes; when it succeeds, the staged rows are added and nothing else changes. */
  lemma BulkCreateOrdersSpec(m: map<OrderNumber, Order>, ss: seq<Staged>)
    ensures BulkCreateOrders(m, ss).Failure? <==> Clashes(m, ss)
    ensures BulkCreateOrders(m, ss).Success? ==>
      var r := BulkCreateOrders(m, ss).value;
      && (forall n :: n in r <==> n in m || Assigned(ss, n).Some?)
      && (forall n :: n in m ==> r[n] == m[n])
      && (forall n :: Assigned(ss, n).Some? ==> n in r && r[n] == Assigned(ss, n).value)
  {
    BulkCreateOrdersFails(m, ss);
    BulkCreateOrdersAdds(m, ss);
  }

  /** A bulk update keeps the stored numbers and gives each the row last staged for it. */
  lemma {:induction false} BulkUpdateOrdersSpec(m: map<OrderNumber, Order>, ss: seq<Staged>)
    ensures BulkUpdateOrders(m, ss).Keys == m.Keys
    ensures forall n :: n in m ==>
      BulkUpdateOrders(m, ss)[n] == if Assigned(ss, n).Some? then Assigned(ss, n).value else m[n]
  {
    if ss != [] {
      BulkUpdateOrdersSpec(m, ss[..|ss| - 1]);
    }
  }

  /** A bulk item insert appends to each order exactly the items queued for it. */
  lemma {:induction false} BulkCreateItemsSpec(m: map<OrderNumber, seq<Item>>, qs: seq<QueuedItem>)
    ensures forall n :: n in BulkCreateItems(m, qs) <==> n in m || QueuedFor(qs, n) != []
    ensures forall n :: n in BulkCreateItems(m, qs) ==>
      BulkCreateItems(m, qs)[n] == (if n in m then m[n] else []) + QueuedFor(qs, n)
  {
    if qs != [] {
      BulkCreateItemsSpec(m, qs[..|qs| - 1]);
    }
  }

  // ---------------------------------------------------------------------------
  // The plans against the declarative specification

  lemma NumbersSnoc(os: seq<OrderData>)
    requires os != []
    ensures Numbers(os) == Numbers(os[..|os| - 1]) + {os[|os| - 1].number}
  {
  }

  /** A new number repeated in the batch is repeated before its last entry, or that entry repeats it. */
  lemma RepeatsNewLast(existing: set<OrderNumber>, os: seq<OrderData>)
    requires os != [] && RepeatsNew(existing, os)
    ensures var init, o := os[..|os| - 1], os[|os| - 1];
      RepeatsNew(existing, init) || (o.number !in existing && o.number in Numbers(init))
  {
    var init := os[..|os| - 1];
    var i, j :| 0 <= i < j < |os| && os[i].number == os[j].number && os[i].number !in existing;
    assert init[i] == os[i];
    if j < |init| {
      assert init[j] == os[j];
    }
  }

  /** Extending a batch keeps the repeats it had, and the last entry adds one when it repeats a new number. */
  lemma RepeatsNewExtend(existing: set<OrderNumber>, os: seq<OrderData>)
    requires os != []
    requires var init, o := os[..|os| - 1], os[|os| - 1];
      RepeatsNew(existing, init) || (o.number !in existing && o.number in Numbers(init))
    ensures RepeatsNew(existing, os)
  {
    var init, o := os[..|os| - 1], os[|os| - 1];
    if RepeatsNew(existing, init) {
      var i, j :| 0 <= i < j < |init| && init[i].number == init[j].number && init[i].number !in existing;
      assert os[i] == init[i] && os[j] == init[j];
    } else {
      var i :| 0 <= i < |init| && init[i].number == o.number;
      assert os[i] == init[i];
    }
  }

  lemma RepeatsNewSnoc(existing: set<OrderNumber>, os: seq<OrderData>)
    requires os != []
    ensures var init, o := os[..|os| - 1], os[|os| - 1];
      RepeatsNew(existing, os) <==> RepeatsNew(existing, init) || (o.number !in existing && o.number in Numbers(init))
  {
    var init, o := os[..|os| - 1], os[|os| - 1];
    if RepeatsNew(existing, os) {
      RepeatsNewLast(existing, os);
    }
    if RepeatsNew(existing, init) || (o.number !in existing && o.number in Numbers(init)) {
      RepeatsNewExtend(existing, os);
    }
  }

  /** The numbers planned for insertion are the submitted numbers not stored yet, repeated exactly when the batch repeats one. */
  lemma {:induction false} PlanCreatesNumbers(existing: set<OrderNumber>, user: Username, os: seq<OrderData>)
    ensures var p := PlanCreates(existing, user, os);
      && (forall i :: 0 <= i < |p| ==> p[i].number !in existing)
      && (set k | k in StagedNumbers(p)) == Numbers(os) - existing
      && (HasRepeat(StagedNumbers(p)) <==> RepeatsNew(existing, os))
  {
    if os != [] {
      var init, o := os[..|os| - 1], os[|os| - 1];
      var p0 := PlanCreates(existing, user, init);
      PlanCreatesNumbers(existing, user, init);
      NumbersSnoc(os);
      RepeatsNewSnoc(existing, os);
      if o.number !in existing {
        var p := p0 + [Staged(o.number, RowOf(user, o))];
        assert StagedNumbers(p) == StagedNumbers(p0) + [o.number];
        assert (set k | k in StagedNumbers(p)) == (set k | k in StagedNumbers(p0)) + {o.number};
        HasRepeatSnoc(StagedNumbers(p0), o.number);
      }
    }
  }

  /** Every submitted number not yet stored is planned for insertion with its last entry's values, owned by the user. */
  lemma {:induction false} PlanCreatesAssigned(existing: set<OrderNumber>, user: Username, os: seq<OrderData>, n: OrderNumber)
    ensures Assigned(PlanCreates(existing, user, os), n)
      == if n in Numbers(os) && n !in existing then Some(RowOf(user, LastWith(os, n))) else None
  {
    if os != [] {
      var init, o := os[..|os| - 1], os[|os| - 1];
      PlanCreatesAssigned(existing, user, init, n);
      NumbersSnoc(os);
      if o.number !in existing {
        var p0 := PlanCreates(existing, user, init);
        var p := p0 + [Staged(o.number, RowOf(user, o))];
        assert p[..|p| - 1] == p0;
      }
    }
  }

  /** Every submitted number already stored is planned for update with its last entry's values, owned by the user. */
  lemma {:induction false} PlanUpdatesAssigned(existing: set<OrderNumber>, user: Username, os: seq<OrderData>, n: OrderNumber)
    ensures Assigned(PlanUpdates(existing, user, os), n)
      == if n in Numbers(os) && n in existing then Some(RowOf(user, LastWith(os, n))) else None
  {
    if os != [] {
      var init, o := os[..|os| - 1], os[|os| - 1];
      PlanUpdatesAssigned(existing, user, init, n);
      NumbersSnoc(os);
      if o.number in existing {
        var p0 := PlanUpdates(existing, user, init);
        var p := p0 + [Staged(o.number, RowOf(user, o))];
        assert p[..|p| - 1] == p0;
      }
    }
  }

  /** Each entry is planned once, as a create or as an update. */
  lemma {:induction false} PlanSizes(existing: set<OrderNumber>, user: Username, os: seq<OrderData>)
    ensures |PlanCreates(existing, user, os)| + |PlanUpdates(existing, user, os)| == |os|
  {
    if os != [] {
      PlanSizes(existing, user, os[..|os| - 1]);
    }
  }

  lemma {:induction false} QueuedForAppend(a: seq<QueuedItem>, b: seq<QueuedItem>, n: OrderNumber)
    ensures QueuedFor(a + b, n) == QueuedFor(a, n) + QueuedFor(b, n)
  {
    if b != [] {
      var b0 := b[..|b| - 1];
      QueuedForAppend(a, b0, n);
      assert (a + b)[..|a + b| - 1] == a + b0;
      assert (a + b)[|a + b| - 1] == b[|b| - 1];
      var tail := if b[|b| - 1].order == n then [b[|b| - 1].item] else [];
      calc {
        QueuedFor(a + b, n);
        QueuedFor(a + b0, n) + tail;
        (QueuedFor(a, n) + QueuedFor(b0, n)) + tail;
        QueuedFor(a, n) + (QueuedFor(b0, n) + tail);
      }
    } else {
      assert a + b == a;
    }
  }

  lemma {:induction false} QueuedForQueueOf(o: OrderData, n: OrderNumber, k: nat)
    requires k <= |o.items|
    ensures QueuedFor(QueueOf(o)[..k], n) == if o.number == n then o.items[..k] else []
  {
    if k > 0 {
      QueuedForQueueOf(o, n, k - 1);
      assert QueueOf(o)[..k][..k - 1] == QueueOf(o)[..k - 1];
      assert o.items[..k] == o.items[..k - 1] + [o.items[k - 1]];
    }
  }

  /** The items one order queues for `n`: all of its items when it is numbered `n`, none otherwise. */
  lemma QueuedForOne(o: OrderData, n: OrderNumber)
    ensures QueuedFor(QueueOf(o), n) == if o.number == n then o.items else []
  {
    QueuedForQueueOf(o, n, |o.items|);
    assert QueueOf(o)[..|o.items|] == QueueOf(o);
    assert o.items[..|o.items|] == o.items;
  }

  /** The item queue holds, for every number, exactly the items submitted for it, in batch order. */
  lemma {:induction false} PlanItemsQueued(os: seq<OrderData>, n: OrderNumber)
    ensures QueuedFor(PlanItems(os), n) == ItemsFor(os, n)
  {
    if os != [] {
      var init, o := os[..|os| - 1], os[|os| - 1];
      PlanItemsQueued(init, n);
      QueuedForAppend(PlanItems(init), QueueOf(o), n);
      QueuedForOne(o, n);
    }
  }

  /** The item queue holds all submitted items. */
  lemma {:induction false} PlanItemsCount(os: seq<OrderData>)
    ensures |PlanItems(os)| == TotalItems(os)
  {
    if os != [] {
      PlanItemsCount(os[..|os| - 1]);
    }
  }

  /** The bulk insert and update of the plans leave every order as the reconciled store has it. */
  lemma CommitOrders(db: Store, user: Username, os: seq<OrderData>)
    requires !RepeatsNew(db.orders.Keys, os)
    ensures BulkCreateOrders(db.orders, PlanCreates(db.orders.Keys, user, os)).Success?
    ensures BulkUpdateOrders(BulkCreateOrders(db.orders, PlanCreates(db.orders.Keys, user, os)).value,
                             PlanUpdates(db.orders.Keys, user, os))
      == Reconciled(db, user, os).orders
  {
    var K := db.orders.Keys;
    var creates := PlanCreates(K, user, os);
    var updates := PlanUpdates(K, user, os);
    PlanCreatesNumbers(K, user, os);
    BulkCreateOrdersSpec(db.orders, creates);
    var inserted := BulkCreateOrders(db.orders, creates).value;
    BulkUpdateOrdersSpec(inserted, updates);
    var orders := BulkUpdateOrders(inserted, updates);
    var spec := Reconciled(db, user, os).orders;
    forall n ensures (n in orders <==> n in spec) && (n in orders ==> orders[n] == spec[n]) {
      ReconciledAt(db, user, os, n);
      PlanCreatesAssigned(K, user, os, n);
      PlanUpdatesAssigned(K, user, os, n);
      if n in Numbers(os) && n !in K {
        assert n in inserted && inserted[n] == RowOf(user, LastWith(os, n));
      }
    }
    MapsEqual(orders, spec);
  }

  /** The bulk item insert, after the deletions, leaves every order's items as the reconciled store has them. */
  lemma CommitItems(db: Store, user: Username, os: seq<OrderData>, cleared: map<OrderNumber, seq<Item>>)
    requires db.items.Keys == db.orders.Keys
    requires cleared.Keys == db.items.Keys + Numbers(os)
    requires forall n :: n in cleared ==> cleared[n] == if n in Numbers(os) then [] else db.items[n]
    ensures BulkCreateItems(cleared, PlanItems(os)) == Reconciled(db, user, os).items
  {
    var items := BulkCreateItems(cleared, PlanItems(os));
    var spec := Reconciled(db, user, os).items;
    BulkCreateItemsSpec(cleared, PlanItems(os));
    forall n ensures (n in items <==> n in spec) && (n in items ==> items[n] == spec[n]) {
      CommitItemsAt(db, user, os, cleared, n);
    }
    MapsEqual(items, spec);
  }

  lemma CommitItemsAt(db: Store, user: Username, os: seq<OrderData>, cleared: map<OrderNumber, seq<Item>>, n: OrderNumber)
    requires db.items.Keys == db.orders.Keys
    requires cleared.Keys == db.items.Keys + Numbers(os)
    requires n in cleared ==> cleared[n] == if n in Numbers(os) then [] else db.items[n]
    requires n in BulkCreateItems(cleared, PlanItems(os)) <==> n in cleared || QueuedFor(PlanItems(os), n) != []
    requires n in BulkCreateItems(cleared, PlanItems(os)) ==>
      BulkCreateItems(cleared, PlanItems(os))[n] == (if n in cleared then cleared[n] else []) + QueuedFor(PlanItems(os), n)
    ensures var items, spec := BulkCreateItems(cleared, PlanItems(os)), Reconciled(db, user, os).items;
      (n in items <==> n in spec) && (n in items ==> items[n] == spec[n])
  {
    ReconciledAt(db, user, os, n);
    PlanItemsQueued(os, n);
    var items := BulkCreateItems(cleared, PlanItems(os));
    var queued := QueuedFor(PlanItems(os), n);
    if n in Numbers(os) {
      assert items[n] == [] + queued;
    } else if n in db.orders {
      assert queued == [];
      assert items[n] == db.items[n] + [];
    } else {
      assert n !in cleared && queued == [];
    }
  }

  /** The insert of new orders fails exactly when a not-yet-stored number repeats in the batch. */
  lemma CreatePlanClashes(db: Store, user: Username, os: seq<OrderData>)
    ensures BulkCreateOrders(db.orders, PlanCreates(db.orders.Keys, user, os)).Failure? <==> RepeatsNew(db.orders.Keys, os)
  {
    PlanCreatesNumbers(db.orders.Keys, user, os);
    BulkCreateOrdersSpec(db.orders, PlanCreates(db.orders.Keys, user, os));
  }

  /** Without repeated new numbers, one order is inserted per distinct new number. */
  lemma CreatedCount(existing: set<OrderNumber>, user: Username, os: seq<OrderData>)
    requires !RepeatsNew(existing, os)
    ensures |PlanCreates(existing, user, os)| == |Numbers(os) - existing|
  {
    var p := PlanCreates(existing, user, os);
    PlanCreatesNumbers(existing, user, os);
    DistinctIffSameSize(StagedNumbers(p));
  }

  /** What one more entry adds to the item queue. */
  lemma PlanStep(os: seq<OrderData>, i: nat)
    requires i < |os|
    ensures PlanItems(os[..i + 1]) == PlanItems(os[..i]) + QueueOf(os[i])
  {
    var post := os[..i + 1];
    assert post[..|post| - 1] == os[..i];
    assert post[|post| - 1] == os[i];
  }

  /** One more entry whose number is already stored extends the update plan only. */
  lemma PlanStepExisting(existing: set<OrderNumber>, user: Username, os: seq<OrderData>, i: nat)
    requires i < |os| && os[i].number in existing
    ensures PlanCreates(existing, user, os[..i + 1]) == PlanCreates(existing, user, os[..i])
    ensures PlanUpdates(existing, user, os[..i + 1])
         == PlanUpdates(existing, user, os[..i]) + [Staged(os[i].number, RowOf(user, os[i]))]
  {
    var post := os[..i + 1];
    assert post[..|post| - 1] == os[..i];
    assert post[|post| - 1] == os[i];
  }

  /** One more entry whose number is not stored extends the create plan only. */
  lemma PlanStepNew(existing: set<OrderNumber>, user: Username, os: seq<OrderData>, i: nat)
    requires i < |os| && os[i].number !in existing
    ensures PlanCreates(existing, user, os[..i + 1])
         == PlanCreates(existing, user, os[..i]) + [Staged(os[i].number, RowOf(user, os[i]))]
    ensures PlanUpdates(existing, user, os[..i + 1]) == PlanUpdates(existing, user, os[..i])
  {
    var post := os[..i + 1];
    assert post[..|post| - 1] == os[..i];
    assert post[|post| - 1] == os[i];
  }

  /** The stored orders the batch names, looked up once by number before the loop. */
  function ExistingOrders(orders: map<OrderNumber, Order>, numbers: seq<OrderNumber>): (r: map<OrderNumber, Order>)
    ensures forall i :: 0 <= i < |numbers| ==> (numbers[i] in r <==> numbers[i] in orders)
    ensures forall n :: n in r ==> n in orders && n in numbers && r[n] == orders[n]
  {
    map n | n in orders && n in numbers :: orders[n]
  }

  // ---------------------------------------------------------------------------
  // create()

  /**
   * The stored items after deleting those of each submitted order in turn; an
   * order not stored yet has none, and gets an empty list to fill.
   */
  function ClearedItems(items: map<OrderNumber, seq<Item>>, os: seq<OrderData>): (r: map<OrderNumber, seq<Item>>)
    ensures r.Keys == items.Keys + Numbers(os)
    ensures forall n :: n in r ==> r[n] == if n in Numbers(os) then [] else items[n]
  {
    if os == [] then items
    else ClearedItems(items, os[..|os| - 1])[os[|os| - 1].number := []]
  }

  lemma ClearedStep(items: map<OrderNumber, seq<Item>>, os: seq<OrderData>, i: nat)
    requires i < |os|
    ensures ClearedItems(items, os[..i + 1]) == ClearedItems(items, os[..i])[os[i].number := []]
  {
    var post := os[..i + 1];
    assert post[..|post| - 1] == os[..i];
    assert post[|post| - 1] == os[i];
  }

  /** The plans after staging the first `i` entries of the batch. */
  ghost predicate StagedUpTo(K: set<OrderNumber>, items: map<OrderNumber, seq<Item>>, user: Username, os: seq<OrderData>, i: nat,
                             toCreate: seq<Staged>, toUpdate: seq<Staged>, itemQueue: seq<QueuedItem>, cleared: map<OrderNumber, seq<Item>>)
    requires i <= |os|
  {
    && toCreate == PlanCreates(K, user, os[..i])
    && toUpdate == PlanUpdates(K, user, os[..i])
    && itemQueue == PlanItems(os[..i])
    && cleared == ClearedItems(items, os[..i])
  }

  /**
   * One pass of the staging loop: the entry is staged as an update when its
   * number is stored and as a create otherwise, the stored items of its number
   * are deleted, and its items are queued.
   */
  method StageEntry(ghost K: set<OrderNumber>, ghost items: map<OrderNumber, seq<Item>>, existing: map<OrderNumber, Order>,
                    user: Username, os: seq<OrderData>, i: nat,
                    toCreate: seq<Staged>, toUpdate: seq<Staged>, itemQueue: seq<QueuedItem>, cleared: map<OrderNumber, seq<Item>>)
    returns (toCreate': seq<Staged>, toUpdate': seq<Staged>, itemQueue': seq<QueuedItem>, cleared': map<OrderNumber, seq<Item>>)
    requires i < |os| && (os[i].number in existing <==> os[i].number in K)
    requires StagedUpTo(K, items, user, os, i, toCreate, toUpdate, itemQueue, cleared)
    ensures StagedUpTo(K, items, user, os, i + 1, toCreate', toUpdate', itemQueue', cleared')
  {
    var o := os[i];
    PlanStep(os, i);
    toCreate', toUpdate' := toCreate, toUpdate;
    if o.number in existing {
      PlanStepExisting(K, user, os, i);
      toUpdate' := toUpdate + [Staged(o.number, RowOf(user, o))];
    } else {
      PlanStepNew(K, user, os, i);
      toCreate' := toCreate + [Staged(o.number, RowOf(user, o))];
    }
    // delete the order's stored items; an order not stored yet has none
    ClearedStep(items, os, i);
    cleared' := cleared[o.number := []];
    itemQueue' := itemQueue + QueueOf(o);
  }

  /**
   * The staging loop of OrderUploadSerializer.create: walks the batch in order,
   * stages each entry as an update (its number is stored) or a create, clears the
   * stored items of every submitted number, and queues the entry's items.
   */
  method Stage(db: Store, user: Username, os: seq<OrderData>)
    returns (toCreate: seq<Staged>, toUpdate: seq<Staged>, itemQueue: seq<QueuedItem>, cleared: map<OrderNumber, seq<Item>>)
    ensures toCreate == PlanCreates(db.orders.Keys, user, os)
    ensures toUpdate == PlanUpdates(db.orders.Keys, user, os)
    ensures itemQueue == PlanItems(os)
    ensures cleared == ClearedItems(db.items, os)
  {
    toCreate, toUpdate, itemQueue, cleared := [], [], [], db.items;
    assert os[..0] == [];
    var numbers := OrderNumbers(os);
    var existing := ExistingOrders(db.orders, numbers);
    var i := 0;
    while i < |os|
      invariant 0 <= i <= |os|
      invariant StagedUpTo(db.orders.Keys, db.items, user, os, i, toCreate, toUpdate, itemQueue, cleared)
    {
      assert numbers[i] == os[i].number;
      toCreate, toUpdate, itemQueue, cleared :=
        StageEntry(db.orders.Keys, db.items, existing, user, os, i, toCreate, toUpdate, itemQueue, cleared);
      i := i + 1;
    }
    assert os[..i] == os;
  }

  /**
   * OrderUploadSerializer.create as one all-or-nothing transaction: it fails, and
   * nothing of it is kept, exactly when the insert of new orders would store a
   * number twice; otherwise it yields the reconciled store and the counts of
   * created orders, updated orders and created items.
   */
  method Create(db: Store, data: UploadData) returns (r: Result<Persisted, PersistenceError>)
    requires Valid(db)
    ensures r.Failure? <==> RepeatsNew(db.orders.Keys, data.orders)
    ensures r.Success? ==> r.value.store == Reconciled(db, data.user, data.orders)
    ensures r.Success? ==> r.value.counts.createdOrders == |Numbers(data.orders) - db.orders.Keys|
    ensures r.Success? ==> r.value.counts.createdOrders + r.value.counts.updatedOrders == |data.orders|
    ensures r.Success? ==> r.value.counts.createdItems == TotalItems(data.orders)
  {
    var user, os := data.user, data.orders;
    // get_or_create: an existing user is reused
    var users := db.users + {user};
    var toCreate, toUpdate, itemQueue, cleared := Stage(db, user, os);
    CreatePlanClashes(db, user, os);
    var inserted := BulkCreateOrders(db.orders, toCreate);
    if inserted.Failure? {
      // the transaction is rolled back: nothing of it is kept
      return Failure(inserted.error);
    }
    var updated := BulkUpdateOrders(inserted.value, toUpdate);
    var items := BulkCreateItems(cleared, itemQueue);
    CommitOrders(db, user, os);
    CommitItems(db, user, os, cleared);
    PlanSizes(db.orders.Keys, user, os);
    CreatedCount(db.orders.Keys, user, os);
    PlanItemsCount(os);
    r := Success(Persisted(Store(users, updated, items, db.dailyStats), Counts(|toCreate|, |toUpdate|, |itemQueue|)));
  }
}
