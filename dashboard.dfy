/** The order dashboard page (app/dashboard/page.tsx): the component state
    `orders`, `selectedOrders` and `filter`, the selection operations, the
    translation of the filter into a store query, and label generation. */
module DashboardPage {
  import opened Wrappers
  import opened Types
  import opened OrderStore

  /** The filter drop-down: every order, or only the orders in one state. */
  datatype ViewFilter = All | Only(status: Status)

  /** The status argument loadData passes to getOrders: nothing for `all`,
      the state's own column string otherwise. */
  function StatusArg(f: ViewFilter): (r: Option<string>)
    ensures r.None? <==> f.All?
    ensures f.Only? ==> r == Some(StatusName(f.status)) && ParseStatus(r.value) == Some(f.status)
  {
    match f
    case All => None
    case Only(s) => ParseStatusName(s); Some(StatusName(s))
  }

  /** Under filter `f` the page lists exactly the user's orders that `f`
      admits: all of them for `all`, those in the chosen state otherwise. */
  lemma ListingForFilter(rows: seq<Order>, userId: string, f: ViewFilter)
    ensures forall o :: o in GetOrders(rows, userId, StatusArg(f)) <==>
              o in rows && o.userId == userId && (f.Only? ==> o.status == f.status)
  {
    if f.Only? {
      forall t: Status ensures StatusName(t) == StatusName(f.status) <==> t == f.status {
        StatusNameInjective(t, f.status);
      }
    }
  }

  /** The selection after clicking the checkbox of order `id`: `id` flips
      membership and every other id keeps its own. */
  function Toggle(selected: set<string>, id: string): (r: set<string>)
    ensures id in r <==> id !in selected
    ensures forall x :: x != id ==> (x in r <==> x in selected)
  {
    if id in selected then selected - {id} else selected + {id}
  }

  /** Clicking the same checkbox twice restores the selection. */
  lemma ToggleTwice(selected: set<string>, id: string)
    ensures Toggle(Toggle(selected, id), id) == selected
  {
  }

  /** `new Set(orders.map(o => o.id))`. */
  function IdSet(orders: seq<Order>): (r: set<string>)
    ensures forall i :: 0 <= i < |orders| ==> orders[i].id in r
    ensures forall x :: x in r ==> exists i :: 0 <= i < |orders| && orders[i].id == x
    ensures |r| <= |orders|
  {
    if orders == [] then {}
    else
      var rest := IdSet(orders[1..]);
      assert forall i :: 1 <= i < |orders| ==> orders[i] == orders[1..][i - 1];
      {orders[0].id} + rest
  }

  /** With distinct ids the id set is as large as the listing. */
  lemma {:induction false} IdSetSize(orders: seq<Order>)
    requires DistinctIds(orders)
    ensures |IdSet(orders)| == |orders|
  {
    if orders != [] {
      var tail := orders[1..];
      assert DistinctIds(tail) by {
        forall i, j | 0 <= i < j < |tail| ensures tail[i].id != tail[j].id {
          assert tail[i] == orders[i + 1] && tail[j] == orders[j + 1];
        }
      }
      IdSetSize(tail);
      assert orders[0].id !in IdSet(tail);
    }
  }

  /** selectAll: the selection is emptied when its size equals the number
      of listed orders, and otherwise becomes exactly the listed ids. */
  function SelectAllResult(selected: set<string>, orders: seq<Order>): (r: set<string>)
    ensures |selected| == |orders| ==> r == {}
    ensures |selected| != |orders| ==>
              forall x :: x in r <==> exists i :: 0 <= i < |orders| && orders[i].id == x
  {
    if |selected| == |orders| then {} else IdSet(orders)
  }

  /** The header checkbox: checked when at least one order is listed and
      the selection is as large as the listing. It is never checked on an
      empty listing or with nothing selected. */
  predicate HeaderChecked(orders: seq<Order>, selected: set<string>)
    ensures HeaderChecked(orders, selected) ==> orders != [] && selected != {}
  {
    |orders| > 0 && |selected| == |orders|
  }

  /** When the selection holds only listed ids and ids are distinct, the
      header checkbox is checked exactly when every listed order is
      selected. */
  lemma HeaderCheckedMeansAllSelected(orders: seq<Order>, selected: set<string>)
    requires DistinctIds(orders) && selected <= IdSet(orders)
    ensures HeaderChecked(orders, selected) <==> orders != [] && selected == IdSet(orders)
  {
    IdSetSize(orders);
    var missing := IdSet(orders) - selected;
    assert IdSet(orders) == selected + missing;
    assert |IdSet(orders)| == |selected| + |missing|;
    if |selected| == |orders| {
      assert missing == {};
    }
  }

  /** selectAll and the header checkbox look only at sizes: two selections
      of equal size behave identically, whichever ids they hold. */
  lemma SizeOnlyDecides(orders: seq<Order>, s: set<string>, t: set<string>)
    requires |s| == |t|
    ensures SelectAllResult(s, orders) == SelectAllResult(t, orders)
    ensures HeaderChecked(orders, s) == HeaderChecked(orders, t)
  {
  }

  /** On a non-empty listing with distinct ids, selectAll flips the header
      checkbox: from unchecked it checks it, from checked it clears it. */
  lemma SelectAllFlipsHeader(orders: seq<Order>, selected: set<string>)
    requires |orders| > 0 && DistinctIds(orders)
    ensures HeaderChecked(orders, SelectAllResult(selected, orders)) <==> !HeaderChecked(orders, selected)
  {
    IdSetSize(orders);
  }

  /** `Array.from(selected)`: a list holding each selected id once. */
  method ArrayFrom(selected: set<string>) returns (ids: seq<string>)
    ensures forall x :: x in ids <==> x in selected
    ensures |ids| == |selected|
  {
    ids := [];
    var rest := selected;
    while rest != {}
      invariant forall x :: x in selected <==> x in ids || x in rest
      invariant forall x :: x in ids ==> x !in rest
      invariant |ids| + |rest| == |selected|
      decreases |rest|
    {
      var x :| x in rest;
      ids := ids + [x];
      rest := rest - {x};
    }
  }

  class Dashboard {
    /** The order store the page reads and writes. */
    const store: Store
    /** The signed-in user's profile row, once the auth check has resolved. */
    var user: Option<User>
    var orders: seq<Order>
    var stats: Stats
    var selectedOrders: set<string>
    var filter: ViewFilter

    /** The initial component state. */
    constructor (store: Store, user: Option<User>)
      ensures this.store == store && this.user == user
      ensures orders == [] && stats == Stats(0, 0, 0, 0, 0)
      ensures selectedOrders == {} && filter == All
    {
      this.store := store;
      this.user := user;
      orders := [];
      stats := Stats(0, 0, 0, 0, 0);
      selectedOrders := {};
      filter := All;
    }

    /** loadData: without a user nothing happens; otherwise the listing is
        reloaded under the current filter and the statistics recomputed. */
    method LoadData()
      modifies this`orders, this`stats
      ensures user.None? ==> orders == old(orders) && stats == old(stats)
      ensures user.Some? ==> orders == GetOrders(store.orders, user.value.id, StatusArg(filter))
      ensures user.Some? ==> stats == UserStats(store.orders, store.labels, user.value.id)
    {
      if user.None? {
        return;
      }
      orders := GetOrders(store.orders, user.value.id, StatusArg(filter));
      stats := UserStats(store.orders, store.labels, user.value.id);
    }

    /** Choosing a filter stores it and reloads the data under it. */
    method SetFilter(f: ViewFilter)
      modifies this`filter, this`orders, this`stats
      ensures filter == f
      ensures user.None? ==> orders == old(orders) && stats == old(stats)
      ensures user.Some? ==> orders == GetOrders(store.orders, user.value.id, StatusArg(f))
      ensures user.Some? ==> stats == UserStats(store.orders, store.labels, user.value.id)
    {
      filter := f;
      LoadData();
    }

    /** toggleOrderSelection: copy the selection, delete or add `orderId`. */
    method ToggleOrderSelection(orderId: string)
      modifies this`selectedOrders
      ensures selectedOrders == Toggle(old(selectedOrders), orderId)
    {
      var newSelected := selectedOrders;
      if orderId in newSelected {
        newSelected := newSelected - {orderId};
      } else {
        newSelected := newSelected + {orderId};
      }
      selectedOrders := newSelected;
    }

    /** selectAll, the header checkbox's change handler. */
    method SelectAll()
      modifies this`selectedOrders
      ensures selectedOrders == SelectAllResult(old(selectedOrders), orders)
    {
      if |selectedOrders| == |orders| {
        selectedOrders := {};
      } else {
        selectedOrders := IdSet(orders);
      }
    }

    /** generateLabels: with nothing selected nothing happens. Otherwise
        every selected order is marked printed (with the clock readings
        `printedAt` and `updatedAt`), no other row changes, the data is
        reloaded and the selection is emptied. */
    method GenerateLabels(printedAt: int, updatedAt: int)
      modifies this`orders, this`stats, this`selectedOrders, store`orders
      ensures old(selectedOrders) == {} ==>
                && store.orders == old(store.orders)
                && selectedOrders == old(selectedOrders)
                && orders == old(orders) && stats == old(stats)
      ensures old(selectedOrders) != {} ==>
                && store.orders == MarkWhere(old(store.orders), old(selectedOrders), printedAt, updatedAt)
                && selectedOrders == {}
                && (user.None? ==> orders == old(orders) && stats == old(stats))
                && (user.Some? ==> orders == GetOrders(store.orders, user.value.id, StatusArg(filter)))
                && (user.Some? ==> stats == UserStats(store.orders, store.labels, user.value.id))
      ensures |store.orders| == |old(store.orders)|
      ensures forall i :: 0 <= i < |store.orders| && old(store.orders)[i].id in old(selectedOrders) ==>
                store.orders[i].status == Printed && store.orders[i].printedAt == Some(printedAt)
      ensures forall i :: 0 <= i < |store.orders| && old(store.orders)[i].id !in old(selectedOrders) ==>
                store.orders[i] == old(store.orders)[i]
    {
      if |selectedOrders| == 0 {
        return;
      }
      var ids := ArrayFrom(selectedOrders);
      assert IdsOf(ids) == selectedOrders;
      MarkedRows(store.orders, selectedOrders, printedAt, updatedAt);
      var _ := store.MarkOrdersAsPrinted(ids, printedAt, updatedAt);
      LoadData();
      selectedOrders := {};
    }
  }
}
