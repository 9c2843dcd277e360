/**
 * The courier screen (ui_courier.py): the list of orders free to be taken, the
 * courier's own orders, taking an order and changing the status of one's own
 * order. Each handler is one transaction over the order table.
 */
module CourierScreen {
  import opened Wrappers
  import opened OrderStatus
  import opened Schema

  // ---------- Taking an order ----------

  /** What _take_order reports, in the order it checks; ClaimFailed is the rolled-back exception. */
  datatype ClaimOutcome = NoSelection | NotFound | AlreadyTaken | NotClaimable(status: Status) | ClaimFailed | Claimed

  /** Where either handler raises: `fault` is Some(READ) when the SELECT raises, and any other Some when the UPDATE or the commit does. */
  const READ: nat := 0

  /**
   * The order is assigned to this session's courier: the SQL test
   * `ID_курьера = ?`, which a NULL on either side never passes.
   */
  predicate Assigned(orders: map<Id, Order>, id: Id, courier: Option<Id>) {
    id in orders && courier.Some? && orders[id].courier == courier
  }

  /** The order may be claimed: it exists, has no courier and is создан or в обработке. */
  predicate Free(orders: map<Id, Order>, id: Id) {
    id in orders && orders[id].courier == None && orders[id].status.Claimable()
  }

  /**
   * _take_order on the order table: the outcome and the order table
   * afterwards. An exception rolls back, so the table is unchanged. The
   * session's courier id is written as it is, NULL for an account without a
   * Курьер row.
   */
  function Take(orders: map<Id, Order>, selected: Option<Id>, courier: Option<Id>, fault: Option<nat>)
    : (r: (ClaimOutcome, map<Id, Order>))
    ensures r.0 != Claimed ==> r.1 == orders
    ensures r.0 == Claimed <==> Chosen(selected) && Free(orders, selected.value) && fault.None?
    ensures r.0 == ClaimFailed <==>
      Chosen(selected) && (fault == Some(READ) || (fault.Some? && Free(orders, selected.value)))
    ensures r.0 == Claimed ==>
      var id := selected.value;
      r.1 == orders[id := orders[id].(courier := courier, status := WithCourier)]
  {
    if !Chosen(selected) then (NoSelection, orders)
    else if fault == Some(READ) then (ClaimFailed, orders)
    else
      var id := selected.value;
      if id !in orders then (NotFound, orders)
      else if orders[id].courier.Some? then (AlreadyTaken, orders)
      else if !orders[id].status.Claimable() then (NotClaimable(orders[id].status), orders)
      else if fault.Some? then (ClaimFailed, orders)
      else (Claimed, orders[id := orders[id].(courier := courier, status := WithCourier)])
  }

  /** Once one courier has taken an order, a second attempt by anyone changes nothing and, unless its read raises, is refused as taken. */
  lemma TakeIsExclusive(orders: map<Id, Order>, id: Id, first: Id, second: Option<Id>, fault: Option<nat>)
    requires Take(orders, Some(id), Some(first), None).0 == Claimed
    ensures var after := Take(orders, Some(id), Some(first), None).1;
      Take(after, Some(id), second, fault).1 == after
      && (fault != Some(READ) ==> Take(after, Some(id), second, fault).0 == AlreadyTaken)
      && after[id].courier == Some(first)
  {
  }

  // ---------- Changing the status of one's own order ----------

  /** What _change_status reports, in the order it checks; ChangeFailed is the rolled-back exception. */
  datatype StatusOutcome = NoOrderSelected | NoStatusChosen | NotYours | Frozen | ChangeFailed | Changed

  /** The courier may set this text on the order: it is theirs, and a delivered order only stays delivered. */
  predicate MayChange(orders: map<Id, Order>, id: Id, courier: Option<Id>, text: string) {
    && Assigned(orders, id, courier)
    && (orders[id].status == Delivered ==> text == DELIVERED)
  }

  /**
   * _change_status on the order table, with the combobox text as typed.
   * An exception rolls back, so the table is unchanged.
   */
  function ChangeStatus(orders: map<Id, Order>, selected: Option<Id>, courier: Option<Id>, text: string, fault: Option<nat>)
    : (r: (StatusOutcome, map<Id, Order>))
    ensures r.0 != Changed ==> r.1 == orders
    ensures r.0 == Changed <==>
      Chosen(selected) && text != "" && MayChange(orders, selected.value, courier, text) && fault.None?
    ensures r.0 == ChangeFailed <==>
      && Chosen(selected) && text != ""
      && (fault == Some(READ) || (fault.Some? && MayChange(orders, selected.value, courier, text)))
    ensures r.0 == Changed ==>
      var id := selected.value;
      r.1 == orders[id := orders[id].(status := Parse(text))]
  {
    if !Chosen(selected) then (NoOrderSelected, orders)
    else if text == "" then (NoStatusChosen, orders)
    else if fault == Some(READ) then (ChangeFailed, orders)
    else
      var id := selected.value;
      if !Assigned(orders, id, courier) then (NotYours, orders)
      else if orders[id].status == Delivered && text != DELIVERED then (Frozen, orders)
      else if fault.Some? then (ChangeFailed, orders)
      else (Changed, orders[id := orders[id].(status := Parse(text))])
  }

  /** A delivered order stays delivered whatever status any courier picks; repeating "доставлен" is accepted. */
  lemma DeliveredIsFinal(orders: map<Id, Order>, selected: Option<Id>, courier: Option<Id>, text: string,
                         fault: Option<nat>, id: Id)
    requires id in orders && orders[id].status == Delivered
    ensures var r := ChangeStatus(orders, selected, courier, text, fault);
      id in r.1 && r.1[id].status == Delivered
  {
  }

  /** No status change, accepted or not, moves an order to another courier or adds or removes an order. */
  lemma ChangeStatusKeepsAssignment(orders: map<Id, Order>, selected: Option<Id>, courier: Option<Id>, text: string,
                                    fault: Option<nat>)
    ensures var after := ChangeStatus(orders, selected, courier, text, fault).1;
      after.Keys == orders.Keys
      && forall id :: id in orders ==>
           after[id].courier == orders[id].courier && after[id].product == orders[id].product
           && after[id].qty == orders[id].qty && after[id].payment == orders[id].payment
  {
  }

  // ---------- The two listings ----------

  /** The inner joins of both queries: the order's card, the card's client and the product all exist. */
  predicate Joined(orders: map<Id, Order>, cards: map<Id, Card>, clients: map<Id, ClientProfile>,
                   products: map<Id, Product>, id: Id)
  {
    && id in orders
    && orders[id].payment in cards
    && cards[orders[id].payment].client in clients
    && orders[id].product in products
  }

  /** The rows of _load_available: no courier yet and status создан or в обработке. */
  function FreeIds(orders: map<Id, Order>, cards: map<Id, Card>, clients: map<Id, ClientProfile>,
                   products: map<Id, Product>): set<Id>
  {
    set id | id in orders && orders[id].courier == None && orders[id].status.Claimable()
               && Joined(orders, cards, clients, products, id)
  }

  /** The rows of _load_my_orders: assigned to this courier. */
  function MineIds(orders: map<Id, Order>, cards: map<Id, Card>, clients: map<Id, ClientProfile>,
                   products: map<Id, Product>, courier: Option<Id>): set<Id>
  {
    set id | id in orders && Assigned(orders, id, courier) && Joined(orders, cards, clients, products, id)
  }

  function DateOf(orders: map<Id, Order>, id: Id): Date {
    if id in orders then orders[id].date else 0
  }

  /** a may be listed before b: oldest first (ORDER BY date ASC) or newest first (DESC). */
  predicate Precedes(orders: map<Id, Order>, a: Id, b: Id, newestFirst: bool) {
    if newestFirst then DateOf(orders, a) >= DateOf(orders, b) else DateOf(orders, a) <= DateOf(orders, b)
  }

  predicate DateSorted(orders: map<Id, Order>, s: seq<Id>, newestFirst: bool) {
    forall i, j :: 0 <= i < j < |s| ==> Precedes(orders, s[i], s[j], newestFirst)
  }

  /** Places x before the first element it may precede. */
  function Insert(orders: map<Id, Order>, x: Id, s: seq<Id>, newestFirst: bool): (r: seq<Id>)
    ensures multiset(r) == multiset(s) + multiset{x}
    ensures DateSorted(orders, s, newestFirst) ==> DateSorted(orders, r, newestFirst)
  {
    if s == [] then [x]
    else if Precedes(orders, x, s[0], newestFirst) then
      PrependSorted(orders, x, s, newestFirst);
      [x] + s
    else
      var rest := Insert(orders, x, s[1..], newestFirst);
      assert s == [s[0]] + s[1..];
      FromTailOrX(rest, s[1..], x);
      HeadPrecedesRest(orders, s, x, rest, newestFirst);
      [s[0]] + rest
  }

  /** An element that may precede the head of a sorted list may precede all of it. */
  lemma PrependSorted(orders: map<Id, Order>, x: Id, s: seq<Id>, newestFirst: bool)
    requires s != [] && Precedes(orders, x, s[0], newestFirst)
    ensures DateSorted(orders, s, newestFirst) ==> DateSorted(orders, [x] + s, newestFirst)
  {
    if DateSorted(orders, s, newestFirst) {
      var r := [x] + s;
      forall i, j | 0 <= i < j < |r| ensures Precedes(orders, r[i], r[j], newestFirst) {
        if i == 0 {
          assert r[j] == s[j - 1];
          assert j - 1 == 0 || Precedes(orders, s[0], s[j - 1], newestFirst);
        } else {
          assert r[i] == s[i - 1] && r[j] == s[j - 1];
        }
      }
    }
  }

  /** Every element of a permutation of t plus x is x or an element of t. */
  lemma FromTailOrX(rest: seq<Id>, t: seq<Id>, x: Id)
    requires multiset(rest) == multiset(t) + multiset{x}
    ensures forall e :: e in rest ==> e in t || e == x
  {
    forall e | e in rest ensures e in t || e == x {
      assert e in multiset(rest);
    }
  }

  /** The head of a sorted list may precede everything it is followed by once x is inserted, when x may not precede it. */
  lemma HeadPrecedesRest(orders: map<Id, Order>, s: seq<Id>, x: Id, rest: seq<Id>, newestFirst: bool)
    requires s != [] && !Precedes(orders, x, s[0], newestFirst)
    requires forall e :: e in rest ==> e in s[1..] || e == x
    requires DateSorted(orders, s, newestFirst) ==> DateSorted(orders, rest, newestFirst)
    ensures DateSorted(orders, s, newestFirst) ==> DateSorted(orders, [s[0]] + rest, newestFirst)
  {
    if DateSorted(orders, s, newestFirst) {
      var r := [s[0]] + rest;
      forall i, j | 0 <= i < j < |r| ensures Precedes(orders, r[i], r[j], newestFirst) {
        if i == 0 {
          assert r[j] in rest;
          if r[j] != x {
            var k :| 0 <= k < |s[1..]| && s[1..][k] == r[j];
            assert s[k + 1] == r[j];
          }
        } else {
          assert r[i] == rest[i - 1] && r[j] == rest[j - 1];
        }
      }
    }
  }

  /** Insertion sort by order date; among equal dates the input order is kept. */
  function SortByDate(orders: map<Id, Order>, s: seq<Id>, newestFirst: bool): (r: seq<Id>)
    ensures multiset(r) == multiset(s)
    ensures DateSorted(orders, r, newestFirst)
  {
    if s == [] then []
    else
      assert s == [s[0]] + s[1..];
      Insert(orders, s[0], SortByDate(orders, s[1..], newestFirst), newestFirst)
  }

  /** A list sorted by date holds exactly the given set once each. */
  ghost predicate Lists(orders: map<Id, Order>, r: seq<Id>, ids: set<Id>, newestFirst: bool) {
    && (forall id :: id in r <==> id in ids)
    && |r| == |ids|
    && DateSorted(orders, r, newestFirst)
  }

  lemma SortedSet(orders: map<Id, Order>, ids: set<Id>, newestFirst: bool)
    ensures Lists(orders, SortByDate(orders, Ascending(ids), newestFirst), ids, newestFirst)
  {
    var a := Ascending(ids);
    var r := SortByDate(orders, a, newestFirst);
    assert |r| == |multiset(r)| == |multiset(a)| == |a|;
    forall id ensures id in r <==> id in ids {
      assert id in r <==> id in multiset(r);
      assert id in a <==> id in multiset(a);
    }
  }

  /** _load_available: the free orders, oldest first. */
  function Available(orders: map<Id, Order>, cards: map<Id, Card>, clients: map<Id, ClientProfile>,
                     products: map<Id, Product>): (r: seq<Id>)
    ensures Lists(orders, r, FreeIds(orders, cards, clients, products), false)
  {
    var ids := FreeIds(orders, cards, clients, products);
    SortedSet(orders, ids, false);
    SortByDate(orders, Ascending(ids), false)
  }

  /** _load_my_orders: this courier's orders, newest first. */
  function Mine(orders: map<Id, Order>, cards: map<Id, Card>, clients: map<Id, ClientProfile>,
                products: map<Id, Product>, courier: Option<Id>): (r: seq<Id>)
    ensures Lists(orders, r, MineIds(orders, cards, clients, products, courier), true)
  {
    var ids := MineIds(orders, cards, clients, products, courier);
    SortedSet(orders, ids, true);
    SortByDate(orders, Ascending(ids), true)
  }

  /**
   * The available list and the claim guard agree: every listed order can be
   * taken, and every order the guard accepts is listed unless one of the
   * query's joins drops it.
   */
  lemma AvailableMatchesGuard(orders: map<Id, Order>, cards: map<Id, Card>, clients: map<Id, ClientProfile>,
                              products: map<Id, Product>, id: Id, courier: Option<Id>)
    ensures id in Available(orders, cards, clients, products) && id != 0 ==> Take(orders, Some(id), courier, None).0 == Claimed
    ensures Take(orders, Some(id), courier, None).0 == Claimed && Joined(orders, cards, clients, products, id)
            ==> id in Available(orders, cards, clients, products)
  {
  }

  /** A successful take moves the order from the available list to the taker's list. */
  lemma TakeMovesBetweenLists(orders: map<Id, Order>, cards: map<Id, Card>, clients: map<Id, ClientProfile>,
                              products: map<Id, Product>, id: Id, courier: Id)
    requires Take(orders, Some(id), Some(courier), None).0 == Claimed && Joined(orders, cards, clients, products, id)
    ensures var after := Take(orders, Some(id), Some(courier), None).1;
      id in Available(orders, cards, clients, products)
      && id !in Available(after, cards, clients, products)
      && id in Mine(after, cards, clients, products, Some(courier))
  {
    var after := Take(orders, Some(id), Some(courier), None).1;
    assert Joined(after, cards, clients, products, id);
  }

  /**
   * A claim from a session without a Курьер row writes a NULL courier with
   * status у курьера: the order leaves the available list, is in no
   * courier's list, and no courier can change its status any more.
   */
  lemma ClaimWithoutProfileOrphans(orders: map<Id, Order>, cards: map<Id, Card>, clients: map<Id, ClientProfile>,
                                   products: map<Id, Product>, id: Id)
    requires Take(orders, Some(id), None, None).0 == Claimed
    ensures var after := Take(orders, Some(id), None, None).1;
      id in after && after[id].courier == None && after[id].status == WithCourier
      && id !in Available(after, cards, clients, products)
    ensures var after := Take(orders, Some(id), None, None).1;
      forall c :: id !in Mine(after, cards, clients, products, c)
    ensures var after := Take(orders, Some(id), None, None).1;
      forall c, text, fault :: ChangeStatus(after, Some(id), c, text, fault).1 == after
  {
  }

  // ---------- The screen ----------

  /** The courier's window: who is logged in and which order row is selected. */
  class CourierSession {
    /** The Курьер row joined at login; None for an account without one. */
    const courierId: Option<Id>
    var selected: Option<Id>

    constructor (courierId: Option<Id>)
      ensures this.courierId == courierId && selected == None
    {
      this.courierId := courierId;
      selected := None;
    }

    /**
     * Picking a row in either list (_on_available_select, _on_my_order_select).
     * `id` is None for an empty selection, which keeps the previous order:
     * the handlers return before touching `selected_order_id`.
     */
    method Select(id: Option<Id>)
      modifies this
      ensures selected == if id.Some? then id else old(selected)
    {
      if id.None? {
        return;
      }
      selected := id;
    }

    /** _take_order: read the order's status and courier, check them, then assign it; an exception rolls back and keeps the selection. */
    method TakeOrder(db: Database, fault: Option<nat>) returns (out: ClaimOutcome)
      requires db.Valid()
      modifies this, db
      ensures db.Valid()
      ensures (out, db.orders) == Take(old(db.orders), old(selected), courierId, fault)
      ensures db.products == old(db.products) && db.cards == old(db.cards) && db.users == old(db.users)
      ensures db.clients == old(db.clients) && db.couriers == old(db.couriers) && db.nextId == old(db.nextId)
      ensures selected == if out == Claimed then None else old(selected)
    {
      if !Chosen(selected) {
        return NoSelection;
      }
      if fault == Some(READ) {
        return ClaimFailed;
      }
      var id := selected.value;
      if id !in db.orders {
        return NotFound;
      }
      var row := db.orders[id];
      if row.courier.Some? {
        return AlreadyTaken;
      }
      var status := Name(row.status);
      ClaimableByName(row.status);
      if status != CREATED && status != PROCESSING {
        return NotClaimable(row.status);
      }
      if fault.Some? {
        return ClaimFailed;
      }
      db.orders := db.orders[id := row.(courier := courierId, status := WithCourier)];
      selected := None;
      out := Claimed;
    }

    /** _change_status: the combobox text must be non-empty, the order ours, and a delivered order stays delivered; an exception rolls back and keeps the selection. */
    method ChangeOrderStatus(db: Database, text: string, fault: Option<nat>) returns (out: StatusOutcome)
      requires db.Valid()
      modifies this, db
      ensures db.Valid()
      ensures (out, db.orders) == ChangeStatus(old(db.orders), old(selected), courierId, text, fault)
      ensures db.products == old(db.products) && db.cards == old(db.cards) && db.users == old(db.users)
      ensures db.clients == old(db.clients) && db.couriers == old(db.couriers) && db.nextId == old(db.nextId)
      ensures selected == if out == Changed then None else old(selected)
    {
      if !Chosen(selected) {
        return NoOrderSelected;
      }
      if text == "" {
        return NoStatusChosen;
      }
      if fault == Some(READ) {
        return ChangeFailed;
      }
      var id := selected.value;
      if !Assigned(db.orders, id, courierId) {
        return NotYours;
      }
      var current := Name(db.orders[id].status);
      NameInjective(db.orders[id].status, Delivered);
      if current == DELIVERED && text != DELIVERED {
        return Frozen;
      }
      if fault.Some? {
        return ChangeFailed;
      }
      db.orders := db.orders[id := db.orders[id].(status := Parse(text))];
      selected := None;
      out := Changed;
    }
  }
}
