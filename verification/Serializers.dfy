/**
 * Validation of an upload (OrderUploadSerializer.validate_user and
 * validate_orders, together with the field bounds their fields declare) and the
 * non-negativity validators of UserStatsSerializer (orders/serializers.py).
 */
module Serializers {
  import opened Wrappers
  import opened Constants
  import opened Models

  /**
   * One submitted order with its items: timestamps and decimals already parsed,
   * string fields as submitted (the serializers trim them).
   */
  datatype OrderData = OrderData(
    number: OrderNumber,
    createdAt: Timestamp,
    totalAmount: Cents,
    status: string,
    items: seq<Item>)

  /** One upload: the username it is submitted for and its orders. */
  datatype UploadData = UploadData(user: string, orders: seq<OrderData>)

  datatype FieldError =
    | UsernameEmpty
    | UsernameTooLong
    | UsernameNullCharacter
    | OrdersEmpty
    | DuplicateOrderNumbers
    | InvalidRecords(indices: set<nat>)

  datatype Field = UserField | OrdersField

  /** The characters Python's `str.isspace` accepts. */
  predicate IsSpace(c: char) {
    || c == ' '
    || '\t' <= c <= '\r'
    || '\U{1C}' <= c <= '\U{1F}'
    || c == '\U{85}'
    || c == '\U{A0}'
    || c == '\U{1680}'
    || '\U{2000}' <= c <= '\U{200A}'
    || c == '\U{2028}'
    || c == '\U{2029}'
    || c == '\U{202F}'
    || c == '\U{205F}'
    || c == '\U{3000}'
  }

  predicate AllSpace(s: string) {
    forall k :: 0 <= k < |s| ==> IsSpace(s[k])
  }

  /** No whitespace at either end. */
  predicate Trimmed(s: string) {
    s != [] ==> !IsSpace(s[0]) && !IsSpace(s[|s| - 1])
  }

  function TrimStart(s: string): (r: string)
    ensures |r| <= |s| && r == s[|s| - |r|..]
    ensures forall k :: 0 <= k < |s| - |r| ==> IsSpace(s[k])
    ensures r != [] ==> !IsSpace(r[0])
  {
    if s != [] && IsSpace(s[0]) then TrimStart(s[1..]) else s
  }

  function TrimEnd(s: string): (r: string)
    ensures |r| <= |s| && r == s[..|r|]
    ensures forall k :: |r| <= k < |s| ==> IsSpace(s[k])
    ensures r != [] ==> !IsSpace(r[|r| - 1])
  {
    if s != [] && IsSpace(s[|s| - 1]) then TrimEnd(s[..|s| - 1]) else s
  }

  /** Trimming the start leaves nothing exactly when every character is whitespace. */
  lemma {:induction false} TrimStartEmpty(s: string)
    ensures TrimStart(s) == [] <==> AllSpace(s)
  {
    if s != [] {
      if IsSpace(s[0]) {
        var t := s[1..];
        TrimStartEmpty(t);
        assert TrimStart(s) == TrimStart(t);
        if AllSpace(t) {
          forall k | 0 <= k < |s| ensures IsSpace(s[k]) {
            if k > 0 { assert s[k] == t[k - 1]; }
          }
        }
        if AllSpace(s) {
          forall k | 0 <= k < |t| ensures IsSpace(t[k]) {
            assert t[k] == s[k + 1];
          }
        }
      } else {
        assert TrimStart(s) == s;
      }
    }
  }

  /** Trimming the end of a string that starts with a non-whitespace character keeps that character. */
  lemma TrimEndKeepsFirst(t: string)
    requires t != [] && !IsSpace(t[0])
    ensures TrimEnd(t) != [] && TrimEnd(t)[0] == t[0]
  {
  }

  /** Trimming both ends keeps a contiguous part of the string and removes only whitespace around it. */
  lemma TrimBothSlice(s: string)
    ensures exists i, j :: 0 <= i <= j <= |s| && TrimEnd(TrimStart(s)) == s[i..j] && AllSpace(s[..i]) && AllSpace(s[j..])
  {
    var t := TrimStart(s);
    var u := TrimEnd(t);
    var i := |s| - |t|;
    SpacePrefix(s, i);
    SpaceInnerSuffix(s, i, t, u);
    assert u == s[i..i + |u|];
  }

  /** Removing only whitespace from the front leaves a whitespace prefix behind. */
  lemma SpacePrefix(s: string, i: nat)
    requires i <= |s| && forall k :: 0 <= k < i ==> IsSpace(s[k])
    ensures AllSpace(s[..i])
  {
  }

  /** A prefix `u` of the suffix `t` of `s`, followed only by whitespace in `t`, is a slice of `s` followed only by whitespace. */
  lemma SpaceInnerSuffix(s: string, i: nat, t: string, u: string)
    requires i <= |s| && t == s[i..] && |u| <= |t| && u == t[..|u|]
    requires forall k :: |u| <= k < |t| ==> IsSpace(t[k])
    ensures u == s[i..i + |u|] && AllSpace(s[i + |u|..])
  {
    var rest := s[i + |u|..];
    forall k | 0 <= k < |rest| ensures IsSpace(rest[k]) {
      assert rest[k] == t[|u| + k];
    }
  }

  /**
   * Python's `str.strip()` without arguments: the part of the string between its
   * leading and its trailing whitespace.
   */
  function Strip(s: string): (r: string)
    ensures |r| <= |s|
    ensures r == [] <==> AllSpace(s)
    ensures Trimmed(r)
    ensures exists i, j :: 0 <= i <= j <= |s| && r == s[i..j] && AllSpace(s[..i]) && AllSpace(s[j..])
  {
    TrimBothSlice(s);
    var t := TrimStart(s);
    TrimStartEmpty(s);
    if t == [] then t
    else
      TrimEndKeepsFirst(t);
      TrimEnd(t)
  }

  /** Stripping a string without surrounding whitespace leaves it as it is. */
  lemma StripTrimmed(s: string)
    requires Trimmed(s)
    ensures Strip(s) == s
  {
    if s != [] {
      assert TrimStart(s) == s;
      assert TrimEnd(s) == s;
    }
  }

  lemma StripIdempotent(s: string)
    ensures Strip(Strip(s)) == Strip(s)
  {
    StripTrimmed(Strip(s));
  }

  /** validate_user: an empty or whitespace-only name is refused, any other is returned stripped. */
  function ValidateUser(value: string): (r: Result<Username, FieldError>)
    ensures r.Failure? <==> AllSpace(value)
    ensures r.Failure? ==> r.error == UsernameEmpty
    ensures r.Success? ==> r.value == Strip(value) && r.value != [] && Trimmed(r.value)
  {
    if Strip(value) == [] then Failure(UsernameEmpty) else Success(Strip(value))
  }

  /** The order numbers of a batch, in batch order. */
  function OrderNumbers(os: seq<OrderData>): (r: seq<OrderNumber>)
    ensures |r| == |os|
    ensures forall i :: 0 <= i < |os| ==> r[i] == os[i].number
  {
    seq(|os|, i requires 0 <= i < |os| => os[i].number)
  }

  /** Two positions of the list hold the same element. */
  predicate HasRepeat<T(==)>(s: seq<T>) {
    exists i, j :: 0 <= i < j < |s| && s[i] == s[j]
  }

  /** Two entries of the batch carry the same order number. */
  predicate HasDuplicateNumbers(os: seq<OrderData>) {
    HasRepeat(OrderNumbers(os))
  }

  /** A list and the set of its elements have the same size exactly when no element repeats. */
  lemma {:induction false} DistinctIffSameSize<T>(s: seq<T>)
    ensures |set x | x in s| <= |s|
    ensures |set x | x in s| == |s| <==> forall i, j :: 0 <= i < j < |s| ==> s[i] != s[j]
  {
    if s != [] {
      var t := s[1..];
      DistinctIffSameSize(t);
      assert s == [s[0]] + t;
      assert (set x | x in s) == (set x | x in t) + {s[0]};
      if s[0] in t {
        var k :| 0 <= k < |t| && t[k] == s[0];
        assert s[0] == s[k + 1];
      } else {
        assert |set x | x in s| == |set x | x in t| + 1;
        if forall i, j :: 0 <= i < j < |t| ==> t[i] != t[j] {
          forall i, j | 0 <= i < j < |s| ensures s[i] != s[j] {
            if i == 0 { assert s[j] == t[j - 1]; } else { assert s[i] == t[i - 1] && s[j] == t[j - 1]; }
          }
        } else {
          var i, j :| 0 <= i < j < |t| && t[i] == t[j];
          assert s[i + 1] == s[j + 1];
        }
      }
    }
  }

  /**
   * validate_orders: an empty list is refused; a list in which two entries share
   * an order number (exact string match, whatever else they hold) is refused;
   * any other list is returned unchanged.
   */
  function ValidateOrders(value: seq<OrderData>): (r: Result<seq<OrderData>, FieldError>)
    ensures r.Failure? <==> value == [] || HasDuplicateNumbers(value)
    ensures value == [] ==> r == Failure(OrdersEmpty)
    ensures value != [] && HasDuplicateNumbers(value) ==> r == Failure(DuplicateOrderNumbers)
    ensures r.Success? ==> r.value == value
  {
    if value == [] then Failure(OrdersEmpty)
    else
      var numbers := OrderNumbers(value);
      DistinctIffSameSize(numbers);
      if |numbers| != |set n | n in numbers| then Failure(DuplicateOrderNumbers)
      else Success(value)
  }

  /**
   * A text the string fields of the serializers accept: not blank (the model
   * fields do not allow blank) and without a NUL character.
   */
  predicate TextAccepted(s: string) {
    s != [] && '\0' !in s
  }

  /** An item with its string fields trimmed, as its serializer's string fields keep them. */
  function TrimItem(it: Item): Item {
    it.(sku := Strip(it.sku), name := Strip(it.name))
  }

  /** A record with every string field trimmed, as the nested serializers return it. */
  function TrimRecord(o: OrderData): OrderData {
    o.(number := Strip(o.number), status := Strip(o.status), items := TrimItems(o.items))
  }

  function TrimItems(items: seq<Item>): (t: seq<Item>)
    ensures |t| == |items|
  {
    if items == [] then [] else TrimItems(items[..|items| - 1]) + [TrimItem(items[|items| - 1])]
  }

  /** The batch as the `orders` field passes it on: every record trimmed. */
  function TrimBatch(os: seq<OrderData>): (t: seq<OrderData>)
    ensures |t| == |os|
  {
    if os == [] then [] else TrimBatch(os[..|os| - 1]) + [TrimRecord(os[|os| - 1])]
  }

  lemma {:induction false} TrimItemsAt(items: seq<Item>, k: nat)
    requires k < |items|
    ensures TrimItems(items)[k] == TrimItem(items[k])
  {
    if k < |items| - 1 {
      var init := items[..|items| - 1];
      TrimItemsAt(init, k);
      assert init[k] == items[k];
    }
  }

  /** Each entry of the trimmed batch is the submitted record at that position, trimmed. */
  lemma {:induction false} TrimBatchAt(os: seq<OrderData>, i: nat)
    requires i < |os|
    ensures TrimBatch(os)[i] == TrimRecord(os[i])
  {
    if i < |os| - 1 {
      var init := os[..|os| - 1];
      TrimBatchAt(init, i);
      assert init[i] == os[i];
    }
  }

  lemma TrimItemIdempotent(it: Item)
    ensures TrimItem(TrimItem(it)) == TrimItem(it)
  {
    StripIdempotent(it.sku);
    StripIdempotent(it.name);
  }

  lemma {:induction false} TrimItemsIdempotent(items: seq<Item>)
    ensures TrimItems(TrimItems(items)) == TrimItems(items)
  {
    if items != [] {
      var init, t := items[..|items| - 1], TrimItems(items);
      TrimItemsIdempotent(init);
      TrimItemIdempotent(items[|items| - 1]);
      assert t[..|t| - 1] == TrimItems(init);
    }
  }

  /** Trimming a trimmed record changes nothing. */
  lemma TrimRecordIdempotent(o: OrderData)
    ensures TrimRecord(TrimRecord(o)) == TrimRecord(o)
  {
    StripIdempotent(o.number);
    StripIdempotent(o.status);
    TrimItemsIdempotent(o.items);
  }

  /**
   * A string field left blank after trimming is refused: a submitted record whose
   * number, status, or an item's sku or name is only whitespace does not fit.
   */
  lemma BlankTextRefused(o: OrderData)
    requires AllSpace(o.number) || AllSpace(o.status)
          || exists k :: 0 <= k < |o.items| && (AllSpace(o.items[k].sku) || AllSpace(o.items[k].name))
    ensures !RecordFits(TrimRecord(o))
  {
    if k :| 0 <= k < |o.items| && (AllSpace(o.items[k].sku) || AllSpace(o.items[k].name)) {
      TrimItemsAt(o.items, k);
    }
  }

  /**
   * What the nested order and item serializers accept of a trimmed record: the
   * bounds they take from the model fields, and accepted text in every string field.
   */
  predicate RecordFits(o: OrderData) {
    && OrderFits(o.number, o.status, o.totalAmount) && ItemsFit(o.items)
    && TextAccepted(o.number) && TextAccepted(o.status)
    && forall k :: 0 <= k < |o.items| ==> TextAccepted(o.items[k].sku) && TextAccepted(o.items[k].name)
  }

  /**
   * The `user` field: the string field trims the value, refuses it blank, longer
   * than its max_length or holding a NUL character; then validate_user.
   */
  function ValidateUserField(raw: string): (r: Result<Username, FieldError>)
    ensures r.Success? <==> !AllSpace(raw) && UsernameFits(Strip(raw)) && '\0' !in Strip(raw)
    ensures r.Success? ==> r.value == Strip(raw)
    ensures r.Failure? ==>
      r.error == (if AllSpace(raw) then UsernameEmpty else if !UsernameFits(Strip(raw)) then UsernameTooLong else UsernameNullCharacter)
  {
    match ValidateUser(raw)
    case Failure(e) => Failure(e)
    case Success(u) =>
      if |u| > MaxUsernameLength then Failure(UsernameTooLong)
      else if '\0' in u then Failure(UsernameNullCharacter)
      else Success(u)
  }

  /**
   * The `orders` field: each record is trimmed and checked against its own
   * bounds; then validate_orders sees the trimmed records.
   */
  function ValidateOrdersField(os: seq<OrderData>): (r: Result<seq<OrderData>, FieldError>)
    ensures r.Success? <==>
      os != [] && !HasDuplicateNumbers(TrimBatch(os)) && forall i :: 0 <= i < |os| ==> RecordFits(TrimBatch(os)[i])
    ensures r.Success? ==> r.value == TrimBatch(os)
    ensures r.Failure? && r.error.InvalidRecords? ==>
      forall i: nat :: i in r.error.indices <==> i < |os| && !RecordFits(TrimBatch(os)[i])
    ensures (exists i :: 0 <= i < |os| && !RecordFits(TrimBatch(os)[i])) ==> r.Failure? && r.error.InvalidRecords?
    ensures os == [] ==> r == Failure(OrdersEmpty)
    ensures os != [] && HasDuplicateNumbers(TrimBatch(os)) && (forall i :: 0 <= i < |os| ==> RecordFits(TrimBatch(os)[i])) ==>
      r == Failure(DuplicateOrderNumbers)
  {
    var t := TrimBatch(os);
    var bad := Misfits(t);
    if bad != {} then Failure(InvalidRecords(bad)) else ValidateOrders(t)
  }

  /** The positions of the records that do not fit. */
  function Misfits(os: seq<OrderData>): (bad: set<nat>)
    ensures forall i: nat :: i in bad <==> i < |os| && !RecordFits(os[i])
    ensures bad == {} <==> forall i :: 0 <= i < |os| ==> RecordFits(os[i])
  {
    var bad := set i: nat | i < |os| && !RecordFits(os[i]);
    assert bad == {} <==> forall i :: 0 <= i < |os| ==> RecordFits(os[i]) by {
      if i :| 0 <= i < |os| && !RecordFits(os[i]) { assert (i as nat) in bad; }
    }
    bad
  }

  /** What a validated upload satisfies. */
  predicate ValidUpload(d: UploadData) {
    && TextAccepted(d.user) && Trimmed(d.user) && UsernameFits(d.user)
    && d.orders != []
    && !HasDuplicateNumbers(d.orders)
    && forall i :: 0 <= i < |d.orders| ==> RecordFits(d.orders[i])
  }

  /**
   * `is_valid()` of the upload serializer: both fields are checked and every
   * failing field is reported in the error map; on success the username and the
   * string fields of the orders are the trimmed ones.
   */
  function ValidateUpload(data: UploadData): (r: Result<UploadData, map<Field, FieldError>>)
    ensures r.Success? <==> ValidateUserField(data.user).Success? && ValidateOrdersField(data.orders).Success?
    ensures r.Success? ==> r.value == UploadData(Strip(data.user), TrimBatch(data.orders)) && ValidUpload(r.value)
    ensures r.Failure? ==> r.error.Keys != {}
    ensures r.Failure? ==> (UserField in r.error <==> ValidateUserField(data.user).Failure?)
    ensures r.Failure? ==> (OrdersField in r.error <==> ValidateOrdersField(data.orders).Failure?)
    ensures r.Failure? && UserField in r.error ==> r.error[UserField] == ValidateUserField(data.user).error
    ensures r.Failure? && OrdersField in r.error ==> r.error[OrdersField] == ValidateOrdersField(data.orders).error
  {
    var u := ValidateUserField(data.user);
    var o := ValidateOrdersField(data.orders);
    if u.Success? && o.Success? then
      Success(UploadData(u.value, o.value))
    else
      Failure(FieldErrors(u, o))
  }

  /** The error map of a failed upload: one entry per failing field. */
  function FieldErrors(u: Result<Username, FieldError>, o: Result<seq<OrderData>, FieldError>): (m: map<Field, FieldError>)
    requires u.Failure? || o.Failure?
    ensures m.Keys != {}
    ensures UserField in m <==> u.Failure?
    ensures OrdersField in m <==> o.Failure?
    ensures UserField in m ==> m[UserField] == u.error
    ensures OrdersField in m ==> m[OrdersField] == o.error
  {
    var errors := (if u.Failure? then map[UserField := u.error] else map[])
                + (if o.Failure? then map[OrdersField := o.error] else map[]);
    assert UserField in errors || OrdersField in errors;
    errors
  }

  /**
   * A record whose number, status, or an item's sku or name is only whitespace
   * makes the upload fail, with that record named among the invalid ones.
   */
  lemma BlankTextRejected(data: UploadData, i: nat)
    requires i < |data.orders|
    requires var o := data.orders[i];
      AllSpace(o.number) || AllSpace(o.status)
      || exists k :: 0 <= k < |o.items| && (AllSpace(o.items[k].sku) || AllSpace(o.items[k].name))
    ensures ValidateUpload(data).Failure? && OrdersField in ValidateUpload(data).error
    ensures var e := ValidateOrdersField(data.orders).error; e.InvalidRecords? && i in e.indices
  {
    TrimBatchAt(data.orders, i);
    BlankTextRefused(data.orders[i]);
  }

  /** An order whose status is three spaces is refused. */
  lemma BlankStatusRejected()
    ensures ValidateUpload(UploadData("alice", [OrderData("O-1", 0, 100, "   ", [])])).Failure?
  {
    BlankTextRejected(UploadData("alice", [OrderData("O-1", 0, 100, "   ", [])]), 0);
  }

  /**
   * Two orders whose numbers are equal once stripped (" O-1 " and "O-1", say)
   * repeat a number: when every record fits, the orders field reports the
   * repetition.
   */
  lemma StrippedDuplicateRejected(data: UploadData, i: nat, j: nat)
    requires i < j < |data.orders|
    requires Strip(data.orders[i].number) == Strip(data.orders[j].number)
    requires forall k :: 0 <= k < |data.orders| ==> RecordFits(TrimRecord(data.orders[k]))
    ensures ValidateUpload(data).Failure?
    ensures OrdersField in ValidateUpload(data).error
    ensures ValidateUpload(data).error[OrdersField] == DuplicateOrderNumbers
  {
    var os := data.orders;
    var t := TrimBatch(os);
    TrimBatchAt(os, i);
    TrimBatchAt(os, j);
    assert HasDuplicateNumbers(t) by {
      assert OrderNumbers(t)[i] == OrderNumbers(t)[j];
    }
    forall k | 0 <= k < |os|
      ensures RecordFits(t[k])
    {
      TrimBatchAt(os, k);
    }
    assert ValidateOrdersField(os) == Failure(DuplicateOrderNumbers);
  }

  /** An accepted upload carries each submitted record trimmed, and trimming it again changes nothing. */
  lemma ValidatedRecordsTrimmed(data: UploadData, i: nat)
    requires ValidateUpload(data).Success? && i < |data.orders|
    ensures var o := ValidateUpload(data).value.orders[i];
      o == TrimRecord(data.orders[i]) && TrimRecord(o) == o
      && o.number == Strip(data.orders[i].number) && o.status == Strip(data.orders[i].status)
  {
    TrimBatchAt(data.orders, i);
    TrimRecordIdempotent(data.orders[i]);
  }

  datatype StatsFieldError = NegativeOrdersCount | NegativeRevenue

  /** UserStatsSerializer.validate_orders_count: a negative count is refused. */
  function ValidateOrdersCount(value: int): (r: Result<int, StatsFieldError>)
    ensures r.Success? <==> value >= 0
    ensures r.Success? ==> r.value == value
    ensures r.Failure? ==> r.error == NegativeOrdersCount
  {
    if value < 0 then Failure(NegativeOrdersCount) else Success(value)
  }

  /** UserStatsSerializer.validate_total_revenue: a negative revenue is refused. */
  function ValidateTotalRevenue(value: Cents): (r: Result<Cents, StatsFieldError>)
    ensures r.Success? <==> value >= 0
    ensures r.Success? ==> r.value == value
    ensures r.Failure? ==> r.error == NegativeRevenue
  {
    if value < 0 then Failure(NegativeRevenue) else Success(value)
  }
}
