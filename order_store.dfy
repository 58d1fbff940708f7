/** The order store gateway (lib/supabase.ts): the `orders` and `labels`
    tables held as in-memory sequences, the query builders' semantics
    written out (`.eq` filters rows, `.in` tests id membership,
    `.order(..., {ascending: false})` sorts newest first, `.update`
    overwrites columns of the matching rows, `.single` demands exactly one
    row), and the reads and writes the application performs on them. */
module OrderStore {
  import opened Wrappers
  import opened Types

  // ---------------------------------------------------------------------
  // getOrders: owner filter, optional status filter, newest first
  // ---------------------------------------------------------------------

  /** The optional `status` argument of getOrders passes the row when it is
      absent or empty (the code tests it for truthiness) and otherwise
      compares it with the row's `status` column. */
  predicate MatchesStatus(o: Order, status: Option<string>)
    ensures status.Some? && ParseStatus(status.value).Some? ==>
              (MatchesStatus(o, status) <==> o.status == ParseStatus(status.value).value)
    ensures status.Some? && status.value != "" && ParseStatus(status.value).None? ==> !MatchesStatus(o, status)
  {
    status.None? || status.value == "" || StatusName(o.status) == status.value
  }

  /** The rows `.eq('user_id', userId)` and the optional `.eq('status', ...)`
      keep, in table order. */
  function Select(rows: seq<Order>, userId: string, status: Option<string>): (r: seq<Order>)
    ensures forall o :: o in r <==> o in rows && o.userId == userId && MatchesStatus(o, status)
    ensures |r| <= |rows|
  {
    if rows == [] then []
    else
      var rest := Select(rows[1..], userId, status);
      if rows[0].userId == userId && MatchesStatus(rows[0], status) then [rows[0]] + rest else rest
  }

  /** Ordered by `created_at`, descending. */
  predicate NewestFirst(s: seq<Order>) {
    forall i, j :: 0 <= i < j < |s| ==> s[i].createdAt >= s[j].createdAt
  }

  /** Places `o` into a newest-first sequence. */
  function Insert(o: Order, s: seq<Order>): (r: seq<Order>)
    requires NewestFirst(s)
    ensures NewestFirst(r)
    ensures multiset(r) == multiset(s) + multiset{o}
    ensures |r| == |s| + 1
    ensures r[0] == o || (|s| > 0 && r[0] == s[0])
  {
    if s == [] || s[0].createdAt <= o.createdAt then [o] + s
    else
      assert s == [s[0]] + s[1..];
      [s[0]] + Insert(o, s[1..])
  }

  /** `.order('created_at', { ascending: false })`. Rows with equal
      timestamps may come back in any order; this picks one. */
  function SortNewestFirst(s: seq<Order>): (r: seq<Order>)
    ensures NewestFirst(r)
    ensures multiset(r) == multiset(s)
    ensures |r| == |s|
  {
    if s == [] then []
    else
      assert s == [s[0]] + s[1..];
      Insert(s[0], SortNewestFirst(s[1..]))
  }

  /** getOrders(userId, status): every returned order belongs to `userId`
      and passes the status filter, every such order of the table is
      returned as often as it occurs there, and the result is newest first. */
  function GetOrders(rows: seq<Order>, userId: string, status: Option<string>): (r: seq<Order>)
    ensures NewestFirst(r)
    ensures forall o :: o in r ==> o in rows && o.userId == userId && MatchesStatus(o, status)
    ensures forall o :: o in rows && o.userId == userId && MatchesStatus(o, status) ==> o in r
    ensures multiset(r) == multiset(Select(rows, userId, status))
  {
    var r := SortNewestFirst(Select(rows, userId, status));
    assert forall o :: o in r <==> o in multiset(Select(rows, userId, status));
    r
  }

  /** Select keeps each matching row with its multiplicity in the table
      and drops every other row. */
  lemma {:induction false} SelectMultiplicity(rows: seq<Order>, userId: string, status: Option<string>, o: Order)
    ensures multiset(Select(rows, userId, status))[o]
         == if o.userId == userId && MatchesStatus(o, status) then multiset(rows)[o] else 0
  {
    if rows != [] {
      SelectMultiplicity(rows[1..], userId, status, o);
      assert rows == [rows[0]] + rows[1..];
    }
  }

  /** An empty status string filters nothing, exactly like an absent one. */
  lemma {:induction false} EmptyStatusIsNoFilter(rows: seq<Order>, userId: string)
    ensures Select(rows, userId, Some("")) == Select(rows, userId, None)
    ensures GetOrders(rows, userId, Some("")) == GetOrders(rows, userId, None)
  {
    if rows != [] {
      EmptyStatusIsNoFilter(rows[1..], userId);
    }
  }

  /** Adding a status filter only narrows the listing: it keeps exactly
      the owner's orders in that state and never adds a row. */
  lemma {:induction false} StatusFilterNarrows(rows: seq<Order>, userId: string, s: Status)
    ensures forall o :: o in GetOrders(rows, userId, Some(StatusName(s)))
                    <==> o in GetOrders(rows, userId, None) && o.status == s
    ensures multiset(GetOrders(rows, userId, Some(StatusName(s))))
         <= multiset(GetOrders(rows, userId, None))
  {
    forall t: Status ensures StatusName(t) == StatusName(s) <==> t == s {
      StatusNameInjective(t, s);
    }
    forall o ensures multiset(Select(rows, userId, Some(StatusName(s))))[o]
                  <= multiset(Select(rows, userId, None))[o] {
      SelectMultiplicity(rows, userId, Some(StatusName(s)), o);
      SelectMultiplicity(rows, userId, None, o);
    }
  }

  /** The three status-filtered listings partition the unfiltered one:
      each of the user's orders is listed under exactly one state. */
  lemma ListingPartition(rows: seq<Order>, userId: string)
    ensures multiset(GetOrders(rows, userId, Some("pending")))
          + multiset(GetOrders(rows, userId, Some("printed")))
          + multiset(GetOrders(rows, userId, Some("shipped")))
         == multiset(GetOrders(rows, userId, None))
  {
    forall o ensures (multiset(Select(rows, userId, Some("pending")))
                    + multiset(Select(rows, userId, Some("printed")))
                    + multiset(Select(rows, userId, Some("shipped"))))[o]
                  == multiset(Select(rows, userId, None))[o] {
      SelectMultiplicity(rows, userId, Some("pending"), o);
      SelectMultiplicity(rows, userId, Some("printed"), o);
      SelectMultiplicity(rows, userId, Some("shipped"), o);
      SelectMultiplicity(rows, userId, None, o);
    }
  }

  /** A status string that names no lifecycle state matches no row. */
  lemma UnknownStatusListsNothing(rows: seq<Order>, userId: string, name: string)
    requires name != "" && ParseStatus(name).None?
    ensures GetOrders(rows, userId, Some(name)) == []
  {
  }

  /** Two users' listings never share an order. */
  lemma OwnershipIsolation(rows: seq<Order>, u: string, v: string, su: Option<string>, sv: Option<string>)
    requires u != v
    ensures forall o :: o in GetOrders(rows, u, su) ==> o !in GetOrders(rows, v, sv)
  {
  }

  // ---------------------------------------------------------------------
  // getUserStats: counts by status over the owner's rows
  // ---------------------------------------------------------------------

  datatype Stats = Stats(totalOrders: nat, pending: nat, printed: nat, shipped: nat, totalLabels: nat)

  /** The counter of `stats` that belongs to lifecycle state `s`. */
  function CountFor(stats: Stats, s: Status): nat {
    match s
    case Pending => stats.pending
    case Printed => stats.printed
    case Shipped => stats.shipped
  }

  /** `orders.filter(o => o.status === s).length`. */
  function CountStatus(orders: seq<Order>, s: Status): (n: nat)
    ensures n <= |orders|
    ensures n == 0 <==> forall o :: o in orders ==> o.status != s
  {
    if orders == [] then 0
    else (if orders[0].status == s then 1 else 0) + CountStatus(orders[1..], s)
  }

  /** The three status counts of any set of orders add up to its size. */
  lemma {:induction false} CountPartition(orders: seq<Order>)
    ensures CountStatus(orders, Pending) + CountStatus(orders, Printed) + CountStatus(orders, Shipped) == |orders|
  {
    if orders != [] {
      CountPartition(orders[1..]);
    }
  }

  /** The number of label rows whose `user_id` is `userId`. */
  function LabelCount(labels: seq<Label>, userId: string): (n: nat)
    ensures n <= |labels|
    ensures n == 0 <==> forall l :: l in labels ==> l.userId != userId
  {
    if labels == [] then 0
    else (if labels[0].userId == userId then 1 else 0) + LabelCount(labels[1..], userId)
  }

  /** Label rows are counted one by one: the count over two stretches of
      the table is the sum of their counts. */
  lemma {:induction false} LabelCountAppend(a: seq<Label>, b: seq<Label>, userId: string)
    ensures LabelCount(a + b, userId) == LabelCount(a, userId) + LabelCount(b, userId)
  {
    if a == [] {
      assert a + b == b;
    } else {
      assert (a + b)[0] == a[0] && (a + b)[1..] == a[1..] + b;
      LabelCountAppend(a[1..], b, userId);
    }
  }

  /** One label row counts one exactly when it belongs to the user. */
  lemma LabelCountSingle(l: Label, userId: string)
    ensures LabelCount([l], userId) == if l.userId == userId then 1 else 0
  {
  }

  /** getUserStats(userId): the status counts partition the owner's orders,
      each count lies between 0 and the total, and the total is the size
      of the owner's unfiltered listing. */
  function UserStats(rows: seq<Order>, labels: seq<Label>, userId: string): (r: Stats)
    ensures r.pending + r.printed + r.shipped == r.totalOrders
    ensures r.pending <= r.totalOrders && r.printed <= r.totalOrders && r.shipped <= r.totalOrders
    ensures r.totalOrders == |GetOrders(rows, userId, None)|
    ensures r.totalLabels == LabelCount(labels, userId) && r.totalLabels <= |labels|
  {
    var mine := Select(rows, userId, None);
    CountPartition(mine);
    assert |GetOrders(rows, userId, None)| == |multiset(mine)|;
    Stats(|mine|, CountStatus(mine, Pending), CountStatus(mine, Printed), CountStatus(mine, Shipped),
          LabelCount(labels, userId))
  }

  /** With no rows every counter is zero. */
  lemma StatsOfEmptyTables(userId: string)
    ensures UserStats([], [], userId) == Stats(0, 0, 0, 0, 0)
  {
  }

  /** Keeping the owner's rows in state `s` selects as many rows as the
      state counter counts among all of the owner's rows. */
  lemma {:induction false} SelectCountsStatus(rows: seq<Order>, userId: string, s: Status)
    ensures |Select(rows, userId, Some(StatusName(s)))| == CountStatus(Select(rows, userId, None), s)
  {
    if rows != [] {
      SelectCountsStatus(rows[1..], userId, s);
      StatusNameInjective(rows[0].status, s);
    }
  }

  /** Each status counter equals the length of the status-filtered listing,
      so the statistics cards agree with the order table under every filter. */
  lemma StatsAgreeWithListing(rows: seq<Order>, labels: seq<Label>, userId: string, s: Status)
    ensures CountFor(UserStats(rows, labels, userId), s) == |GetOrders(rows, userId, Some(StatusName(s)))|
  {
    SelectCountsStatus(rows, userId, s);
    var listed := GetOrders(rows, userId, Some(StatusName(s)));
    assert |listed| == |multiset(listed)|;
  }

  // ---------------------------------------------------------------------
  // updateOrder: partial merge with a forced `updated_at`
  // ---------------------------------------------------------------------

  /** A `Partial<Order>`: every column may be supplied or left out. */
  datatype OrderPatch = OrderPatch(
    id: Option<string>,
    userId: Option<string>,
    platform: Option<Platform>,
    platformOrderId: Option<string>,
    status: Option<Status>,
    customerName: Option<string>,
    customerPhone: Option<string>,
    customerEmail: Option<string>,
    addressStreet: Option<string>,
    addressNumber: Option<string>,
    addressComplement: Option<string>,
    addressNeighborhood: Option<string>,
    addressCity: Option<string>,
    addressState: Option<string>,
    addressZipcode: Option<string>,
    shippingMethod: Option<ShippingMethod>,
    trackingCode: Option<string>,
    products: Option<seq<Product>>,
    createdAt: Option<int>,
    updatedAt: Option<int>,
    printedAt: Option<int>)

  /** The patch that supplies no column. */
  function EmptyPatch(): OrderPatch {
    OrderPatch(None, None, None, None, None, None, None, None, None, None, None,
               None, None, None, None, None, None, None, None, None, None)
  }

  /** Optional column: a supplied value replaces the stored one. */
  function Overwrite<T>(supplied: Option<T>, stored: Option<T>): Option<T> {
    if supplied.Some? then supplied else stored
  }

  /** `{ ...updates, updated_at: now }` written over a row: supplied columns
      replace the stored ones, the rest are kept, and `updated_at` is `now`
      whatever the patch says. */
  function Apply(o: Order, p: OrderPatch, now: int): (r: Order)
    ensures r.updatedAt == now
  {
    Order(
      p.id.GetOr(o.id),
      p.userId.GetOr(o.userId),
      p.platform.GetOr(o.platform),
      p.platformOrderId.GetOr(o.platformOrderId),
      p.status.GetOr(o.status),
      p.customerName.GetOr(o.customerName),
      Overwrite(p.customerPhone, o.customerPhone),
      Overwrite(p.customerEmail, o.customerEmail),
      p.addressStreet.GetOr(o.addressStreet),
      Overwrite(p.addressNumber, o.addressNumber),
      Overwrite(p.addressComplement, o.addressComplement),
      p.addressNeighborhood.GetOr(o.addressNeighborhood),
      p.addressCity.GetOr(o.addressCity),
      p.addressState.GetOr(o.addressState),
      p.addressZipcode.GetOr(o.addressZipcode),
      p.shippingMethod.GetOr(o.shippingMethod),
      Overwrite(p.trackingCode, o.trackingCode),
      p.products.GetOr(o.products),
      p.createdAt.GetOr(o.createdAt),
      now,
      Overwrite(p.printedAt, o.printedAt))
  }

  /** A patch that supplies nothing changes only `updated_at`. */
  lemma ApplyEmptyPatch(o: Order, now: int)
    ensures Apply(o, EmptyPatch(), now) == o.(updatedAt := now)
  {
  }

  /** Supplying a column replaces it; leaving it out keeps it (shown for
      the lifecycle columns and the owner). */
  lemma ApplyLifecycleColumns(o: Order, p: OrderPatch, now: int)
    ensures Apply(o, p, now).status == (if p.status.Some? then p.status.value else o.status)
    ensures Apply(o, p, now).printedAt == (if p.printedAt.Some? then p.printedAt else o.printedAt)
    ensures Apply(o, p, now).userId == (if p.userId.Some? then p.userId.value else o.userId)
    ensures Apply(o, p, now).createdAt == (if p.createdAt.Some? then p.createdAt.value else o.createdAt)
  {
  }

  /** Repeating the same update at the same instant changes nothing more. */
  lemma ApplyIdempotent(o: Order, p: OrderPatch, now: int)
    ensures Apply(Apply(o, p, now), p, now) == Apply(o, p, now)
  {
  }

  /** How many rows carry id `id`. */
  function IdCount(rows: seq<Order>, id: string): (n: nat)
    ensures n <= |rows|
    ensures n == 0 <==> forall i :: 0 <= i < |rows| ==> rows[i].id != id
  {
    if rows == [] then 0
    else (if rows[0].id == id then 1 else 0) + IdCount(rows[1..], id)
  }

  /** The first row that carries id `id`. */
  function IndexOfId(rows: seq<Order>, id: string): (k: nat)
    requires IdCount(rows, id) > 0
    ensures k < |rows| && rows[k].id == id
    ensures forall j :: 0 <= j < k ==> rows[j].id != id
  {
    if rows[0].id == id then 0 else 1 + IndexOfId(rows[1..], id)
  }

  /** When exactly one row carries `id`, no other row does. */
  lemma {:induction false} SingleMatch(rows: seq<Order>, id: string, k: nat)
    requires IdCount(rows, id) == 1 && k < |rows| && rows[k].id == id
    ensures forall j :: 0 <= j < |rows| && j != k ==> rows[j].id != id
  {
    if k == 0 {
      assert IdCount(rows[1..], id) == 0;
      forall j | 0 < j < |rows| ensures rows[j].id != id {
        assert rows[j] == rows[1..][j - 1];
      }
    } else {
      assert rows[k] == rows[1..][k - 1];
      SingleMatch(rows[1..], id, k - 1);
      forall j | 0 < j < |rows| && j != k ensures rows[j].id != id {
        assert rows[j] == rows[1..][j - 1];
      }
    }
  }

  /** Two rows carrying `id` make the count at least two, so `.single()`
      refuses the update. */
  lemma {:induction false} TwoMatches(rows: seq<Order>, id: string, i: nat, j: nat)
    requires i < j < |rows| && rows[i].id == id && rows[j].id == id
    ensures IdCount(rows, id) >= 2
  {
    if i == 0 {
      assert rows[1..][j - 1] == rows[j];
    } else {
      assert rows[1..][i - 1] == rows[i] && rows[1..][j - 1] == rows[j];
      TwoMatches(rows[1..], id, i - 1, j - 1);
    }
  }

  /** No two rows share an id: the `orders` table's primary key. */
  predicate DistinctIds(orders: seq<Order>) {
    forall i, j :: 0 <= i < j < |orders| ==> orders[i].id != orders[j].id
  }

  /** Under the primary key, an id present in the table is counted once,
      so `.single()` accepts the update. */
  lemma {:induction false} KeyMatchesOnce(rows: seq<Order>, id: string, k: nat)
    requires DistinctIds(rows) && k < |rows| && rows[k].id == id
    ensures IdCount(rows, id) == 1
  {
    var tail := rows[1..];
    assert DistinctIds(tail) by {
      forall i, j | 0 <= i < j < |tail| ensures tail[i].id != tail[j].id {
        assert tail[i] == rows[i + 1] && tail[j] == rows[j + 1];
      }
    }
    if k == 0 {
      forall i | 0 <= i < |tail| ensures tail[i].id != id {
        assert tail[i] == rows[i + 1];
      }
    } else {
      assert tail[k - 1] == rows[k];
      KeyMatchesOnce(tail, id, k - 1);
    }
  }

  /** `.update(...).eq('id', id)`: every row carrying `id` gets the patch;
      rows with another id are untouched, and a missing id changes nothing. */
  function UpdateWhere(rows: seq<Order>, id: string, p: OrderPatch, now: int): (r: seq<Order>)
    ensures |r| == |rows|
    ensures forall i :: 0 <= i < |rows| && rows[i].id != id ==> r[i] == rows[i]
    ensures forall i :: 0 <= i < |rows| && rows[i].id == id ==> r[i] == Apply(rows[i], p, now)
    ensures IdCount(rows, id) == 0 ==> r == rows
  {
    seq(|rows|, i requires 0 <= i < |rows| => if rows[i].id == id then Apply(rows[i], p, now) else rows[i])
  }

  /** An update by id never touches a row with another id. */
  lemma UpdateTouchesOnlyId(rows: seq<Order>, id: string, p: OrderPatch, now: int)
    ensures |UpdateWhere(rows, id, p, now)| == |rows|
    ensures forall i :: 0 <= i < |rows| && rows[i].id != id ==> UpdateWhere(rows, id, p, now)[i] == rows[i]
    ensures forall i :: 0 <= i < |rows| && rows[i].id == id ==> UpdateWhere(rows, id, p, now)[i] == Apply(rows[i], p, now)
  {
  }

  // ---------------------------------------------------------------------
  // markOrdersAsPrinted: bulk status rewrite on an id set
  // ---------------------------------------------------------------------

  /** The lifecycle invariant: `printed_at` is unset exactly while pending. */
  predicate LifecycleConsistent(o: Order) {
    o.status == Pending <==> o.printedAt.None?
  }

  /** The three columns markOrdersAsPrinted writes, whatever the old state.
      The code reads the clock once for `printed_at` and once more for
      `updated_at`; the two readings are separate parameters and nothing
      relates them. Every other column is kept. */
  function MarkPrinted(o: Order, printedAt: int, updatedAt: int): (r: Order)
    ensures r.status == Printed && r.printedAt == Some(printedAt) && r.updatedAt == updatedAt
    ensures LifecycleConsistent(r)
    ensures r.(status := o.status, printedAt := o.printedAt, updatedAt := o.updatedAt) == o
  {
    o.(status := Printed, printedAt := Some(printedAt), updatedAt := updatedAt)
  }

  /** `.update(...).in('id', ids)`: every row whose id is in `ids` is marked;
      every other row is untouched, so an empty id set changes nothing. */
  function MarkWhere(rows: seq<Order>, ids: set<string>, printedAt: int, updatedAt: int): (r: seq<Order>)
    ensures |r| == |rows|
    ensures forall i :: 0 <= i < |rows| && rows[i].id !in ids ==> r[i] == rows[i]
    ensures ids == {} ==> r == rows
  {
    seq(|rows|, i requires 0 <= i < |rows| =>
      if rows[i].id in ids then MarkPrinted(rows[i], printedAt, updatedAt) else rows[i])
  }

  /** The ids an id list names, as `.in` reads it. */
  function IdsOf(ids: seq<string>): (s: set<string>)
    ensures forall x :: x in s <==> x in ids
  {
    set x | x in ids
  }

  /** Rows of `rows` whose id is in `ids`, in table order: what `.select()`
      returns after the bulk update. */
  function WithIds(rows: seq<Order>, ids: set<string>): (r: seq<Order>)
    ensures forall o :: o in r <==> o in rows && o.id in ids
  {
    if rows == [] then []
    else if rows[0].id in ids then [rows[0]] + WithIds(rows[1..], ids)
    else WithIds(rows[1..], ids)
  }

  /** Selecting by an empty id set returns nothing. */
  lemma {:induction false} WithNoIds(rows: seq<Order>)
    ensures WithIds(rows, {}) == []
  {
    if rows != [] {
      WithNoIds(rows[1..]);
    }
  }

  /** After the bulk update every row with an id in `ids` is printed, with
      the two clock readings in `printed_at` and `updated_at`, whatever its
      previous state (a shipped order goes back to printed); every other
      row is untouched. */
  lemma MarkedRows(rows: seq<Order>, ids: set<string>, printedAt: int, updatedAt: int)
    ensures |MarkWhere(rows, ids, printedAt, updatedAt)| == |rows|
    ensures forall i :: 0 <= i < |rows| && rows[i].id in ids ==>
              var m := MarkWhere(rows, ids, printedAt, updatedAt)[i];
              m.status == Printed && m.printedAt == Some(printedAt) && m.updatedAt == updatedAt
              && m == rows[i].(status := Printed, printedAt := Some(printedAt), updatedAt := updatedAt)
    ensures forall i :: 0 <= i < |rows| && rows[i].id !in ids ==> MarkWhere(rows, ids, printedAt, updatedAt)[i] == rows[i]
  {
  }

  /** An empty id list changes nothing and returns nothing. */
  lemma MarkNoIds(rows: seq<Order>, printedAt: int, updatedAt: int)
    ensures MarkWhere(rows, IdsOf([]), printedAt, updatedAt) == rows
    ensures WithIds(MarkWhere(rows, IdsOf([]), printedAt, updatedAt), IdsOf([])) == []
  {
    assert IdsOf([]) == {};
    WithNoIds(MarkWhere(rows, {}, printedAt, updatedAt));
  }

  /** Marking the same ids twice with the same clock readings equals
      marking once. */
  lemma MarkIdempotent(rows: seq<Order>, ids: set<string>, printedAt: int, updatedAt: int)
    ensures MarkWhere(MarkWhere(rows, ids, printedAt, updatedAt), ids, printedAt, updatedAt)
         == MarkWhere(rows, ids, printedAt, updatedAt)
  {
  }

  /** Marking keeps the lifecycle invariant of every row, and a row whose
      `printed_at` reading is no earlier than its creation keeps
      `printed_at >= created_at`. */
  lemma MarkPreservesLifecycle(rows: seq<Order>, ids: set<string>, printedAt: int, updatedAt: int)
    requires forall o :: o in rows ==> LifecycleConsistent(o)
    ensures forall o :: o in MarkWhere(rows, ids, printedAt, updatedAt) ==> LifecycleConsistent(o)
    ensures forall i :: 0 <= i < |rows| && rows[i].id in ids && rows[i].createdAt <= printedAt ==>
              MarkWhere(rows, ids, printedAt, updatedAt)[i].printedAt.value
                >= MarkWhere(rows, ids, printedAt, updatedAt)[i].createdAt
  {
    var after := MarkWhere(rows, ids, printedAt, updatedAt);
    forall o | o in after ensures LifecycleConsistent(o) {
      var i :| 0 <= i < |rows| && after[i] == o;
      assert rows[i] in rows;
    }
  }

  // ---------------------------------------------------------------------
  // The tables and their writes
  // ---------------------------------------------------------------------

  /** The failure `.single()` reports: the filter matched `matched` rows
      where exactly one was required. */
  datatype StoreError = NotSingleRow(matched: nat)

  class Store {
    var orders: seq<Order>
    var labels: seq<Label>

    constructor (orders: seq<Order>, labels: seq<Label>)
      ensures this.orders == orders && this.labels == labels
    {
      this.orders := orders;
      this.labels := labels;
    }

    /** updateOrder(orderId, updates): when exactly one row has the id, that
        row gets the patch with `updated_at := now` and is returned;
        otherwise the call fails and the table is left as it was. */
    method UpdateOrder(orderId: string, updates: OrderPatch, now: int) returns (r: Result<Order, StoreError>)
      modifies this`orders
      ensures IdCount(old(orders), orderId) == 1 ==>
                && orders == UpdateWhere(old(orders), orderId, updates, now)
                && r == Success(Apply(old(orders)[IndexOfId(old(orders), orderId)], updates, now))
      ensures IdCount(old(orders), orderId) != 1 ==>
                orders == old(orders) && r == Failure(NotSingleRow(IdCount(old(orders), orderId)))
    {
      var matched := IdCount(orders, orderId);
      if matched != 1 {
        r := Failure(NotSingleRow(matched));
        return;
      }
      var k := IndexOfId(orders, orderId);
      SingleMatch(orders, orderId, k);
      var row := Apply(orders[k], updates, now);
      orders := orders[k := row];
      r := Success(row);
    }

    /** markOrdersAsPrinted(orderIds): every row whose id is listed becomes
        printed, with the clock readings `printedAt` and `updatedAt`, the
        others are untouched, and the rewritten rows are returned. */
    method MarkOrdersAsPrinted(orderIds: seq<string>, printedAt: int, updatedAt: int) returns (updated: seq<Order>)
      modifies this`orders
      ensures orders == MarkWhere(old(orders), IdsOf(orderIds), printedAt, updatedAt)
      ensures updated == WithIds(orders, IdsOf(orderIds))
    {
      orders := MarkWhere(orders, IdsOf(orderIds), printedAt, updatedAt);
      updated := WithIds(orders, IdsOf(orderIds));
    }
  }
}
