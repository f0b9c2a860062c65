/**
 * What an upload does to the store, stated over the declarative `Reconciled`
 * store that `Reconciler.Create` is proved to produce.
 */
module ReconcilerFacts {
  import opened Constants
  import opened Models
  import opened Serializers
  import opened Reconciler

  /** In a batch without repeated numbers, an entry is the last (and only) one with its number. */
  lemma {:induction false} LastWithDistinct(os: seq<OrderData>, i: nat)
    requires !HasDuplicateNumbers(os) && i < |os|
    ensures LastWith(os, os[i].number) == os[i]
  {
    var init := os[..|os| - 1];
    if i < |os| - 1 {
      assert os[i].number != os[|os| - 1].number;
      assert init[i] == os[i];
      LastWithDistinct(init, i);
    }
  }

  /** In a batch without repeated numbers, the items submitted for an entry's number are that entry's items. */
  lemma {:induction false} ItemsForDistinct(os: seq<OrderData>, i: nat)
    requires !HasDuplicateNumbers(os) && i < |os|
    ensures ItemsFor(os, os[i].number) == os[i].items
  {
    var init := os[..|os| - 1];
    var n := os[i].number;
    if i < |os| - 1 {
      assert n != os[|os| - 1].number;
      assert init[i] == os[i];
      ItemsForDistinct(init, i);
    }
  }

  /**
   * After a validated upload each submitted order holds the submitted
   * created_at, total_amount and status, is owned by the uploading user, and has
   * exactly the submitted items: none of its earlier items survive.
   */
  lemma ReconciledEntry(db: Store, user: Username, os: seq<OrderData>, i: nat)
    requires !HasDuplicateNumbers(os) && i < |os|
    ensures var r, o := Reconciled(db, user, os), os[i];
      && o.number in r.orders && o.number in r.items
      && r.orders[o.number] == Order(user, o.createdAt, o.totalAmount, o.status)
      && r.items[o.number] == o.items
  {
    ReconciledAt(db, user, os, os[i].number);
    LastWithDistinct(os, i);
    ItemsForDistinct(os, i);
  }

  /**
   * Nothing outside the batch changes: the uploading user is added if missing
   * (and is the only user added), every order whose number is not submitted keeps
   * its row and its items, and the snapshots are untouched.
   */
  lemma ReconciledFrame(db: Store, user: Username, os: seq<OrderData>)
    requires db.items.Keys == db.orders.Keys
    ensures var r := Reconciled(db, user, os);
      && r.users == db.users + {user}
      && r.dailyStats == db.dailyStats
      && r.orders.Keys == db.orders.Keys + Numbers(os)
      && (forall n :: n in db.orders && n !in Numbers(os) ==>
            r.orders[n] == db.orders[n] && r.items[n] == db.items[n])
  {
    var r := Reconciled(db, user, os);
    forall n | n in db.orders && n !in Numbers(os)
      ensures r.orders[n] == db.orders[n] && r.items[n] == db.items[n]
    {
      ReconciledAt(db, user, os, n);
    }
  }

  /**
   * A submitted number, repeated or not: the stored row carries the values of the
   * last entry with that number, and the stored items are exactly the items of all
   * its entries.
   */
  lemma ReconciledRepeatedEntry(db: Store, user: Username, os: seq<OrderData>, n: OrderNumber)
    requires n in Numbers(os)
    ensures var r := Reconciled(db, user, os);
      && n in r.orders && n in r.items
      && (exists k :: 0 <= k < |os| && os[k].number == n && (forall j :: k < j < |os| ==> os[j].number != n)
                     && r.orders[n] == RowOf(user, os[k]))
      && (forall x :: x in r.items[n] <==> exists k :: 0 <= k < |os| && os[k].number == n && x in os[k].items)
  {
    ReconciledAt(db, user, os, n);
    LastWithIsLast(os, n);
    var r := Reconciled(db, user, os);
    forall x ensures x in r.items[n] <==> exists k :: 0 <= k < |os| && os[k].number == n && x in os[k].items {
      ItemsForMembers(os, n, x);
    }
  }

  lemma {:induction false} ItemsForFit(os: seq<OrderData>, n: OrderNumber)
    requires forall i :: 0 <= i < |os| ==> ItemsFit(os[i].items)
    ensures ItemsFit(ItemsFor(os, n))
  {
    if os != [] {
      var init := os[..|os| - 1];
      assert forall i :: 0 <= i < |init| ==> init[i] == os[i];
      ItemsForFit(init, n);
    }
  }

  /** An upload of fitting records by a fitting username keeps every integrity constraint of the store. */
  lemma ReconciledValid(db: Store, user: Username, os: seq<OrderData>)
    requires Valid(db) && UsernameFits(user)
    requires forall i :: 0 <= i < |os| ==> RecordFits(os[i])
    ensures Valid(Reconciled(db, user, os))
  {
    var r := Reconciled(db, user, os);
    forall n | n in r.orders
      ensures OrderFits(n, r.orders[n].status, r.orders[n].totalAmount) && r.orders[n].owner in r.users
      ensures n in r.items && ItemsFit(r.items[n])
    {
      ReconciledAt(db, user, os, n);
      if n in Numbers(os) {
        var o := LastWith(os, n);
        var k :| 0 <= k < |os| && os[k] == o;
        assert RecordFits(os[k]);
        ItemsForFit(os, n);
      }
    }
  }

  /** A validated batch never makes the bulk insert store a new number twice. */
  lemma ValidatedNeverRepeatsNew(existing: set<OrderNumber>, os: seq<OrderData>)
    requires !HasDuplicateNumbers(os)
    ensures !RepeatsNew(existing, os)
  {
  }

  /**
   * Resubmitting the same batch by the same user finds every number stored, so
   * nothing is created, and leaves the store as it was after the first upload.
   */
  lemma ResubmitIsIdempotent(db: Store, user: Username, os: seq<OrderData>)
    requires db.items.Keys == db.orders.Keys
    ensures var r := Reconciled(db, user, os);
      && Numbers(os) - r.orders.Keys == {}
      && Reconciled(r, user, os) == r
  {
    var r := Reconciled(db, user, os);
    var r2 := Reconciled(r, user, os);
    forall n ensures (n in r2.orders <==> n in r.orders) && (n in r2.orders ==> r2.orders[n] == r.orders[n]) {
      ReconciledAt(db, user, os, n);
      ReconciledAt(r, user, os, n);
    }
    forall n ensures (n in r2.items <==> n in r.items) && (n in r2.items ==> r2.items[n] == r.items[n]) {
      ReconciledAt(db, user, os, n);
      ReconciledAt(r, user, os, n);
    }
    MapsEqual(r2.orders, r.orders);
    MapsEqual(r2.items, r.items);
  }
}
