/**
 * The ORM aggregates the statistics use over a set of orders: Count('id'),
 * Sum('total_amount') and Avg('total_amount'), each with the `or 0` default the
 * callers apply to an empty set, and the distinct owners of a set of orders.
 */
module Aggregates {
  import opened Models

  /** Sum('total_amount') over the orders numbered `keys`; 0 for no orders. */
  ghost function SumTotals(orders: map<OrderNumber, Order>, keys: set<OrderNumber>): Cents
    requires keys <= orders.Keys
    decreases keys
  {
    if keys == {} then 0
    else
      var k :| k in keys;
      orders[k].totalAmount + SumTotals(orders, keys - {k})
  }

  /** The sum does not depend on the order in which the orders are added up. */
  lemma {:induction false} SumTotalsRemove(orders: map<OrderNumber, Order>, keys: set<OrderNumber>, k: OrderNumber)
    requires keys <= orders.Keys && k in keys
    ensures SumTotals(orders, keys) == orders[k].totalAmount + SumTotals(orders, keys - {k})
    decreases keys
  {
    var j :| j in keys && SumTotals(orders, keys) == orders[j].totalAmount + SumTotals(orders, keys - {j});
    if j != k {
      SumTotalsRemove(orders, keys - {j}, k);
      SumTotalsRemove(orders, keys - {k}, j);
      assert keys - {j} - {k} == keys - {k} - {j};
    }
  }

  lemma SumTotalsSingleton(orders: map<OrderNumber, Order>, k: OrderNumber)
    requires k in orders
    ensures SumTotals(orders, {k}) == orders[k].totalAmount
  {
    SumTotalsRemove(orders, {k}, k);
    assert {k} - {k} == {};
  }

  /** Two stores that hold the same rows under `keys` have the same sum over them. */
  lemma {:induction false} SumTotalsAgree(a: map<OrderNumber, Order>, b: map<OrderNumber, Order>, keys: set<OrderNumber>)
    requires keys <= a.Keys && keys <= b.Keys
    requires forall k :: k in keys ==> a[k].totalAmount == b[k].totalAmount
    ensures SumTotals(a, keys) == SumTotals(b, keys)
    decreases keys
  {
    if keys != {} {
      var k :| k in keys;
      SumTotalsRemove(a, keys, k);
      SumTotalsRemove(b, keys, k);
      SumTotalsAgree(a, b, keys - {k});
    }
  }

  /** The sum over two disjoint sets of orders is the sum of the two sums. */
  lemma {:induction false} SumTotalsUnion(orders: map<OrderNumber, Order>, x: set<OrderNumber>, y: set<OrderNumber>)
    requires x <= orders.Keys && y <= orders.Keys && x !! y
    ensures SumTotals(orders, x + y) == SumTotals(orders, x) + SumTotals(orders, y)
    decreases x
  {
    if x != {} {
      var k :| k in x;
      SumTotalsRemove(orders, x, k);
      SumTotalsRemove(orders, x + y, k);
      assert x + y - {k} == (x - {k}) + y;
      SumTotalsUnion(orders, x - {k}, y);
    } else {
      assert x + y == y;
    }
  }

  /** Every amount within [lo, hi] puts the sum within [count * lo, count * hi]. */
  lemma {:induction false} SumTotalsBounds(orders: map<OrderNumber, Order>, keys: set<OrderNumber>, lo: Cents, hi: Cents)
    requires keys <= orders.Keys
    requires forall k :: k in keys ==> lo <= orders[k].totalAmount <= hi
    ensures |keys| * lo <= SumTotals(orders, keys) <= |keys| * hi
    decreases keys
  {
    if keys != {} {
      var k :| k in keys;
      SumTotalsRemove(orders, keys, k);
      SumTotalsBounds(orders, keys - {k}, lo, hi);
      assert |keys| * lo == (|keys| - 1) * lo + lo;
      assert |keys| * hi == (|keys| - 1) * hi + hi;
    }
  }

  /** Totals that are all 0 or more add up to 0 or more. */
  lemma {:induction false} SumTotalsNonNegative(orders: map<OrderNumber, Order>, keys: set<OrderNumber>)
    requires keys <= orders.Keys
    requires forall k :: k in keys ==> orders[k].totalAmount >= 0
    ensures SumTotals(orders, keys) >= 0
    decreases keys
  {
    if keys != {} {
      var k :| k in keys;
      SumTotalsRemove(orders, keys, k);
      SumTotalsNonNegative(orders, keys - {k});
    }
  }

  /**
   * Avg('total_amount') in cents with the `or 0` default: 0 for no orders,
   * otherwise the quotient rounded down, which is within one cent of the exact
   * mean.
   */
  function Mean(sum: Cents, count: nat): (avg: Cents)
    ensures count == 0 ==> avg == 0
    ensures count > 0 ==> avg * count <= sum < avg * count + count
  {
    if count == 0 then 0 else sum / count
  }

  /** The mean lies between the smallest and the largest amount averaged. */
  lemma MeanBetween(orders: map<OrderNumber, Order>, keys: set<OrderNumber>, lo: Cents, hi: Cents)
    requires keys <= orders.Keys && keys != {}
    requires forall k :: k in keys ==> lo <= orders[k].totalAmount <= hi
    ensures lo <= Mean(SumTotals(orders, keys), |keys|) <= hi
  {
    SumTotalsBounds(orders, keys, lo, hi);
    MeanWithin(SumTotals(orders, keys), |keys|, lo, hi);
  }

  lemma MeanWithin(sum: Cents, n: nat, lo: Cents, hi: Cents)
    requires n > 0 && n * lo <= sum <= n * hi
    ensures lo <= Mean(sum, n) <= hi
  {
    var avg := Mean(sum, n);
    if avg > hi {
      MulMonotone(hi + 1, avg, n);
      assert false;
    }
    if avg < lo {
      MulMonotone(avg + 1, lo, n);
      assert false;
    }
  }

  lemma MulMonotone(a: int, b: int, n: nat)
    requires a <= b
    ensures a * n <= b * n
  {
  }

  /** The distinct owners of the orders numbered `keys`. */
  ghost function Owners(orders: map<OrderNumber, Order>, keys: set<OrderNumber>): set<Username>
    requires keys <= orders.Keys
  {
    set k | k in keys :: orders[k].owner
  }

  /** There are never more distinct owners than orders. */
  lemma {:induction false} OwnersBound(orders: map<OrderNumber, Order>, keys: set<OrderNumber>)
    requires keys <= orders.Keys
    ensures |Owners(orders, keys)| <= |keys|
    decreases keys
  {
    if keys != {} {
      var k :| k in keys;
      OwnersBound(orders, keys - {k});
      assert Owners(orders, keys) == Owners(orders, keys - {k}) + {orders[k].owner};
    }
  }
}
