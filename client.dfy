/**
 * The client screen (ui_client.py): the in-memory cart, checkout as one
 * all-or-nothing transaction, the masked card number and the client's own
 * payment cards.
 */
module ClientScreen {
  import opened Wrappers
  import opened Text
  import opened OrderStatus
  import opened Schema

  /** One cart entry: a product and the quantity wanted. */
  datatype Line = Line(product: Id, qty: int)

  predicate UniqueProducts(cart: seq<Line>) {
    forall i, j :: 0 <= i < j < |cart| ==> cart[i].product != cart[j].product
  }

  /** The cart the screen keeps: each product at most once, each quantity at least 1. */
  predicate GoodCart(cart: seq<Line>) {
    UniqueProducts(cart) && forall i :: 0 <= i < |cart| ==> cart[i].qty >= 1
  }

  // ---------- Adding to the cart ----------

  /** The position of the first line for product p, or -1. */
  function IndexOf(cart: seq<Line>, p: Id): (k: int)
    ensures -1 <= k < |cart|
    ensures k == -1 <==> forall j :: 0 <= j < |cart| ==> cart[j].product != p
    ensures k >= 0 ==> cart[k].product == p && forall j :: 0 <= j < k ==> cart[j].product != p
  {
    if cart == [] then -1
    else if cart[0].product == p then 0
    else
      var k := IndexOf(cart[1..], p);
      if k == -1 then -1 else k + 1
  }

  /**
   * The cart after adding q of product p: the first line for p gets the sum of
   * both quantities and keeps its place; a product not yet in the cart is appended.
   */
  function Merge(cart: seq<Line>, p: Id, q: int): (r: seq<Line>)
    ensures IndexOf(cart, p) >= 0 ==>
      r == cart[IndexOf(cart, p) := Line(p, cart[IndexOf(cart, p)].qty + q)]
    ensures IndexOf(cart, p) == -1 ==> r == cart + [Line(p, q)]
  {
    if cart == [] then [Line(p, q)]
    else if cart[0].product == p then [Line(p, cart[0].qty + q)] + cart[1..]
    else
      var rest := Merge(cart[1..], p, q);
      assert cart == [cart[0]] + cart[1..];
      [cart[0]] + rest
  }

  /** Adding a quantity of at least 1 keeps the cart's shape. */
  lemma MergeKeepsGood(cart: seq<Line>, p: Id, q: int)
    requires GoodCart(cart) && q >= 1
    ensures GoodCart(Merge(cart, p, q))
    ensures |Merge(cart, p, q)| == |cart| + (if IndexOf(cart, p) == -1 then 1 else 0)
  {
  }

  /** What _add_selected_to_cart reports, in the order it checks. */
  datatype AddOutcome =
    | NoProductSelected | NotANumber | TooFew | UnknownProduct
    | NotEnoughStock(stock: int, wanted: int)
    | Added(product: Id, qty: int)

  /**
   * The guard chain of _add_selected_to_cart. The stock check compares the
   * requested quantity alone with the stock, not that quantity plus what the
   * cart already holds.
   */
  function AddVerdict(products: map<Id, Product>, selected: Option<Id>, qtyText: string): (r: AddOutcome)
    ensures r.Added? <==>
      && Chosen(selected) && ParseInt(qtyText).Some? && ParseInt(qtyText).value >= 1
      && selected.value in products && products[selected.value].stock >= ParseInt(qtyText).value
    ensures r.Added? ==> r.product == selected.value && r.qty == ParseInt(qtyText).value && r.qty >= 1
    ensures r == TooFew <==> Chosen(selected) && ParseInt(qtyText).Some? && ParseInt(qtyText).value < 1
  {
    if !Chosen(selected) then NoProductSelected
    else match ParseInt(qtyText)
      case None => NotANumber
      case Some(q) =>
        if q < 1 then TooFew
        else if selected.value !in products then UnknownProduct
        else if products[selected.value].stock < q then NotEnoughStock(products[selected.value].stock, q)
        else Added(selected.value, q)
  }

  /**
   * Because the stock check ignores the cart, two accepted additions can ask
   * for more than the stock; checkout is what finally refuses such a line.
   */
  lemma CartMayExceedStock()
    ensures var products := map[1 := Product("чай", 10.0, 3, None)];
      && AddVerdict(products, Some(1), "2") == Added(1, 2)
      && Merge(Merge([], 1, 2), 1, 2) == [Line(1, 4)]
      && FirstProblem(products, [Line(1, 4)]) == Some(ShortStock(1, 3, 4))
  {
    ParseTwo();
    var products := map[1 := Product("чай", 10.0, 3, None)];
    assert AddVerdict(products, Some(1), "2") == Added(1, 2);
    assert Merge([], 1, 2) == [Line(1, 2)];
  }

  lemma ParseTwo()
    ensures ParseInt("2") == Some(2)
  {
    ParseIntToString(2);
    assert IntToString(2) == "2";
  }

  // ---------- Checkout ----------

  /** Why the validation pass of _create_order stops. */
  datatype Problem = MissingProduct(product: Id) | ShortStock(product: Id, stock: int, wanted: int)

  function LineProblem(products: map<Id, Product>, line: Line): Option<Problem> {
    if line.product !in products then Some(MissingProduct(line.product))
    else if products[line.product].stock < line.qty then Some(ShortStock(line.product, products[line.product].stock, line.qty))
    else None
  }

  /** The problem of the first line, in cart order, that cannot be served. */
  function FirstProblem(products: map<Id, Product>, cart: seq<Line>): (r: Option<Problem>)
    ensures r == None <==> forall j :: 0 <= j < |cart| ==> LineProblem(products, cart[j]) == None
  {
    if cart == [] then None
    else if LineProblem(products, cart[0]).Some? then LineProblem(products, cart[0])
    else
      var r := FirstProblem(products, cart[1..]);
      assert forall j :: 1 <= j < |cart| ==> cart[j] == cart[1..][j - 1];
      r
  }

  /** The first failing line determines the reported problem. */
  lemma {:induction false} FirstProblemAt(products: map<Id, Product>, cart: seq<Line>, i: int)
    requires 0 <= i < |cart| && LineProblem(products, cart[i]).Some?
    requires forall j :: 0 <= j < i ==> LineProblem(products, cart[j]) == None
    ensures FirstProblem(products, cart) == LineProblem(products, cart[i])
  {
    if i > 0 {
      FirstProblemAt(products, cart[1..], i - 1);
    }
  }

  /** The UPDATE of one line: the product, when present, loses that quantity. */
  function TakeStock(products: map<Id, Product>, line: Line): map<Id, Product> {
    if line.product in products
    then products[line.product := products[line.product].(stock := products[line.product].stock - line.qty)]
    else products
  }

  /** The product table after the UPDATE of every line, in cart order. */
  function Decremented(products: map<Id, Product>, cart: seq<Line>): map<Id, Product>
    decreases |cart|
  {
    if cart == [] then products
    else TakeStock(Decremented(products, cart[..|cart| - 1]), cart[|cart| - 1])
  }

  /** The total quantity the cart asks of product p. */
  function QtyOf(cart: seq<Line>, p: Id): int
    decreases |cart|
  {
    if cart == [] then 0
    else QtyOf(cart[..|cart| - 1], p) + (if cart[|cart| - 1].product == p then cart[|cart| - 1].qty else 0)
  }

  /** Each product loses the total quantity its lines ask for; nothing else about any product changes. */
  lemma {:induction false} DecrementedStock(products: map<Id, Product>, cart: seq<Line>, p: Id)
    ensures Decremented(products, cart).Keys == products.Keys
    ensures p in products ==>
      Decremented(products, cart)[p] == products[p].(stock := products[p].stock - QtyOf(cart, p))
    decreases |cart|
  {
    if cart != [] {
      DecrementedStock(products, cart[..|cart| - 1], p);
    }
  }

  /** With each product at most once in the cart, its total is the quantity of its one line. */
  lemma {:induction false} QtyOfUnique(cart: seq<Line>, p: Id)
    requires UniqueProducts(cart)
    ensures QtyOf(cart, p) == if IndexOf(cart, p) == -1 then 0 else cart[IndexOf(cart, p)].qty
    decreases |cart|
  {
    if cart != [] {
      var init := cart[..|cart| - 1];
      assert forall j :: 0 <= j < |init| ==> init[j] == cart[j];
      QtyOfUnique(init, p);
      if cart[|cart| - 1].product == p {
        assert IndexOf(cart, p) == |cart| - 1;
      } else if IndexOf(init, p) >= 0 {
        assert IndexOf(cart, p) == IndexOf(init, p);
      }
    }
  }

  /**
   * A checkout that passed validation takes exactly each line's quantity from
   * its product, leaves products not in the cart alone, and drives no stock below 0.
   */
  lemma CheckoutStock(products: map<Id, Product>, cart: seq<Line>, p: Id)
    requires UniqueProducts(cart) && FirstProblem(products, cart) == None
    requires forall id :: id in products ==> products[id].stock >= 0
    ensures Decremented(products, cart).Keys == products.Keys
    ensures var k := IndexOf(cart, p);
      p in products ==>
        if k == -1 then Decremented(products, cart)[p] == products[p]
        else Decremented(products, cart)[p] == products[p].(stock := products[p].stock - cart[k].qty)
    ensures p in products ==> Decremented(products, cart)[p].stock >= 0
  {
    DecrementedStock(products, cart, p);
    QtyOfUnique(cart, p);
    var k := IndexOf(cart, p);
    if p in products && k >= 0 {
      assert LineProblem(products, cart[k]) == None;
    }
  }

  /** The orders INSERTed for the cart, in cart order, taking identity values from next on. */
  function NewOrders(next: Id, cart: seq<Line>, payment: Id, date: Date): map<Id, Order>
    decreases |cart|
  {
    if cart == [] then map[]
    else
      var last := cart[|cart| - 1];
      NewOrders(next, cart[..|cart| - 1], payment, date)[next + |cart| - 1 :=
        Order(payment, last.product, last.qty, Created, date, None)]
  }

  /** Line k of the cart becomes order next + k: status создан, the chosen card, its product and quantity, no courier. */
  lemma {:induction false} NewOrdersExact(next: Id, cart: seq<Line>, payment: Id, date: Date)
    ensures forall id :: id in NewOrders(next, cart, payment, date) <==> next <= id < next + |cart|
    ensures forall id :: next <= id < next + |cart| ==>
      NewOrders(next, cart, payment, date)[id] == Order(payment, cart[id - next].product, cart[id - next].qty, Created, date, None)
    decreases |cart|
  {
    if cart != [] {
      var init := cart[..|cart| - 1];
      NewOrdersExact(next, init, payment, date);
      assert forall k :: 0 <= k < |init| ==> init[k] == cart[k];
    }
  }

  function Range(lo: Id, n: nat): (r: seq<Id>)
    ensures |r| == n && forall k :: 0 <= k < n ==> r[k] == lo + k
  {
    seq(n, k => lo + k)
  }

  /** What _create_order reports. */
  datatype CheckoutOutcome = Refused(problem: Problem) | RolledBack | Placed(orderIds: seq<Id>)

  /**
   * The outcome of _create_order: a cart line that cannot be served refuses
   * before any write; an INSERT that raises (a card that does not exist, or any
   * other database error at line `fault`) rolls everything back; otherwise one
   * order per line is committed.
   */
  function CheckoutResult(products: map<Id, Product>, cards: map<Id, Card>, cart: seq<Line>,
                          payment: Id, next: Id, fault: Option<nat>): (r: CheckoutOutcome)
    ensures r.Refused? <==> FirstProblem(products, cart).Some?
    ensures r.Placed? <==>
      FirstProblem(products, cart) == None
      && (cart == [] || (payment in cards && (fault.Some? ==> fault.value >= |cart|)))
    ensures r.Placed? ==> r.orderIds == Range(next, |cart|)
  {
    match FirstProblem(products, cart)
    case Some(p) => Refused(p)
    case None =>
      if cart != [] && (payment !in cards || (fault.Some? && fault.value < |cart|)) then RolledBack
      else Placed(Range(next, |cart|))
  }

  /** What _checkout does before the card choice. */
  datatype CheckoutStart = CartEmpty | NoCards | ChooseCard(choices: seq<Id>)

  /**
   * The card belongs to the session's client: the SQL test `ID_Клиента = ?`,
   * which no card passes when the session has no Клиент row (NULL).
   */
  predicate OwnedBy(cards: map<Id, Card>, id: Id, client: Option<Id>) {
    id in cards && client == Some(cards[id].client)
  }

  /** The client's cards, by ascending identity value; the first one is preselected. */
  function PaymentChoices(cards: map<Id, Card>, client: Option<Id>): (r: seq<Id>)
    ensures forall id :: id in r <==> OwnedBy(cards, id, client)
    ensures StrictlyIncreasing(r)
  {
    Ascending(set id | id in cards && OwnedBy(cards, id, client))
  }

  function StartCheckout(cart: seq<Line>, cards: map<Id, Card>, client: Option<Id>): (r: CheckoutStart)
    ensures r.ChooseCard? ==> cart != [] && r.choices != [] && (forall id :: id in r.choices ==> OwnedBy(cards, id, client))
    ensures r == NoCards <==> cart != [] && forall id :: id in cards ==> !OwnedBy(cards, id, client)
  {
    if cart == [] then CartEmpty
    else
      var choices := PaymentChoices(cards, client);
      if choices == [] then NoCards else ChooseCard(choices)
  }

  // ---------- Card masking ----------

  /** full.replace(" ", ""). */
  function RemoveSpaces(s: string): (r: string)
    ensures |r| <= |s| && ' ' !in r
  {
    if s == [] then []
    else (if s[0] == ' ' then [] else [s[0]]) + RemoveSpaces(s[1..])
  }

  lemma {:induction false} RemoveSpacesAppend(a: string, b: string)
    ensures RemoveSpaces(a + b) == RemoveSpaces(a) + RemoveSpaces(b)
    decreases |a|
  {
    if a == [] {
      assert a + b == b;
    } else {
      assert (a + b)[1..] == a[1..] + b;
      RemoveSpacesAppend(a[1..], b);
    }
  }

  lemma {:induction false} RemoveSpacesKeeps(s: string)
    requires ' ' !in s
    ensures RemoveSpaces(s) == s
    decreases |s|
  {
    if s != [] {
      RemoveSpacesKeeps(s[1..]);
    }
  }

  function Stars(n: nat): (r: string)
    ensures |r| == n && forall k :: 0 <= k < n ==> r[k] == '*'
  {
    seq(n, k => '*')
  }

  const MASK_PREFIX := "**** **** **** "

  /** _mask_card: all but the last four characters of the number are hidden. */
  function MaskCard(full: string): (r: string)
    ensures var d := RemoveSpaces(full);
      if |d| < 4 then r == Stars(|d|)
      else |r| == 19 && r[..15] == MASK_PREFIX && r[15..] == d[|d| - 4..]
  {
    var d := RemoveSpaces(full);
    if |d| < 4 then Stars(|d|) else MASK_PREFIX + d[|d| - 4..]
  }

  /** Masking reveals nothing beyond the last four characters: cards agreeing there mask alike. */
  lemma MaskDependsOnLastFour(a: string, b: string)
    requires var da, db := RemoveSpaces(a), RemoveSpaces(b);
      |da| >= 4 && |db| >= 4 && da[|da| - 4..] == db[|db| - 4..]
    ensures MaskCard(a) == MaskCard(b)
  {
  }

  /** Removing the spaces of one masked group of four. */
  lemma GroupDigits(t: string)
    ensures RemoveSpaces("**** " + t) == "****" + RemoveSpaces(t)
  {
    RemoveSpacesKeeps("****");
    RemoveSpacesAppend("**** ", t);
    RemoveSpacesAppend("****", " ");
  }

  /** Masking a masked number gives it back, so the list shows a stored mask unchanged. */
  lemma MaskIdempotent(full: string)
    ensures MaskCard(MaskCard(full)) == MaskCard(full)
  {
    var d := RemoveSpaces(full);
    if |d| < 4 {
      var m := MaskCard(full);
      assert ' ' !in m;
      RemoveSpacesKeeps(m);
    } else {
      var tail := d[|d| - 4..];
      assert ' ' !in tail;
      MaskOfMask(tail);
    }
  }

  /** A mask already in the masked form masks to itself. */
  lemma MaskOfMask(tail: string)
    requires |tail| == 4 && ' ' !in tail
    ensures MaskCard(MASK_PREFIX + tail) == MASK_PREFIX + tail
  {
    PrefixSpaces(tail);
    var dm := RemoveSpaces(MASK_PREFIX + tail);
    assert dm[|dm| - 4..] == tail;
  }

  /** The spaces of the mask prefix go, leaving twelve stars before the last four characters. */
  lemma PrefixSpaces(tail: string)
    requires ' ' !in tail
    ensures RemoveSpaces(MASK_PREFIX + tail) == "****" + ("****" + ("****" + tail))
  {
    var g := "**** ";
    assert MASK_PREFIX + tail == g + (g + (g + tail));
    RemoveSpacesKeeps(tail);
    GroupDigits(tail);
    GroupDigits(g + tail);
    GroupDigits(g + (g + tail));
  }

  // ---------- Payment cards ----------

  /** What the three card handlers report. */
  datatype CardOutcome = NoCardSelected | FieldsMissing | BadExpiry | Declined | DbError | Saved

  /** The card fields after strip(), all three required. */
  predicate CardFieldsFilled(number: string, expiry: string, cvv: string) {
    Strip(number) != [] && Strip(expiry) != [] && Strip(cvv) != []
  }

  /** _add_payment: a new card for this client with the stripped fields, ГГГГ-ММ-ДД expiry required. */
  function AddCardVerdict(number: string, expiry: string, cvv: string, expiryIsDate: bool, fault: bool): (r: CardOutcome)
    ensures r == Saved <==> CardFieldsFilled(number, expiry, cvv) && expiryIsDate && !fault
  {
    if !CardFieldsFilled(number, expiry, cvv) then FieldsMissing
    else if !expiryIsDate then BadExpiry
    else if fault then DbError
    else Saved
  }

  /**
   * _edit_payment on the card table. The UPDATE is scoped by both the selected
   * card and the session's client, so another client's card is never touched;
   * selecting a card that is not ours updates nothing yet still reports success.
   */
  function EditCard(cards: map<Id, Card>, selected: Option<Id>, client: Option<Id>,
                    number: string, expiry: string, cvv: string, fault: bool): (r: (CardOutcome, map<Id, Card>))
    ensures r.0 == Saved <==> Chosen(selected) && CardFieldsFilled(number, expiry, cvv) && !fault
    ensures r.1 == cards || (
      && r.0 == Saved && OwnedBy(cards, selected.value, client)
      && r.1 == cards[selected.value := Card(client.value, Strip(number), Strip(expiry), Strip(cvv))])
    ensures r.0 == Saved && OwnedBy(cards, selected.value, client) ==>
      r.1 == cards[selected.value := Card(client.value, Strip(number), Strip(expiry), Strip(cvv))]
  {
    if !Chosen(selected) then (NoCardSelected, cards)
    else if !CardFieldsFilled(number, expiry, cvv) then (FieldsMissing, cards)
    else if fault then (DbError, cards)
    else
      var id := selected.value;
      if OwnedBy(cards, id, client)
      then (Saved, cards[id := Card(client.value, Strip(number), Strip(expiry), Strip(cvv))])
      else (Saved, cards)
  }

  /** Some order was paid with this card; the foreign key from Заказ then makes DELETE raise. */
  predicate PaidWith(orders: map<Id, Order>, card: Id) {
    exists o :: o in orders && orders[o].payment == card
  }

  /**
   * _delete_payment on the card table. Only the selected card of this client
   * is deleted, and only when no order refers to it.
   */
  function DeleteCard(cards: map<Id, Card>, orders: map<Id, Order>, selected: Option<Id>, client: Option<Id>,
                      confirmed: bool, fault: bool): (r: (CardOutcome, map<Id, Card>))
    ensures r.1 == cards || (r.0 == Saved && selected.Some? && r.1 == cards - {selected.value})
    ensures r.1 != cards <==>
      && Chosen(selected) && confirmed && !fault
      && OwnedBy(cards, selected.value, client) && !PaidWith(orders, selected.value)
  {
    if !Chosen(selected) then (NoCardSelected, cards)
    else if !confirmed then (Declined, cards)
    else if fault then (DbError, cards)
    else
      var id := selected.value;
      if OwnedBy(cards, id, client) then
        if PaidWith(orders, id) then (DbError, cards)
        else
          assert id in cards && id !in cards - {id};
          (Saved, cards - {id})
      else (Saved, cards)
  }

  /** No card handler of one client changes or removes another client's card. */
  lemma CardsScopedToClient(cards: map<Id, Card>, orders: map<Id, Order>, selected: Option<Id>, client: Option<Id>,
                            number: string, expiry: string, cvv: string, confirmed: bool, fault: bool, id: Id)
    requires id in cards && !OwnedBy(cards, id, client)
    ensures var edited := EditCard(cards, selected, client, number, expiry, cvv, fault).1;
      id in edited && edited[id] == cards[id]
    ensures var left := DeleteCard(cards, orders, selected, client, confirmed, fault).1;
      id in left && left[id] == cards[id]
  {
  }

  /** A session without a Клиент row finds no card, so checkout stops at the missing-card message. */
  lemma NoProfileNoCheckout(cart: seq<Line>, cards: map<Id, Card>)
    ensures StartCheckout(cart, cards, None) == if cart == [] then CartEmpty else NoCards
  {
  }

  /** A session without a Клиент row changes no card: every edit or delete leaves the card table as it was. */
  lemma NoProfileChangesNoCard(cards: map<Id, Card>, orders: map<Id, Order>, selected: Option<Id>,
                               number: string, expiry: string, cvv: string, confirmed: bool, fault: bool)
    ensures EditCard(cards, selected, None, number, expiry, cvv, fault).1 == cards
    ensures DeleteCard(cards, orders, selected, None, confirmed, fault).1 == cards
  {
  }

  // ---------- The screen ----------

  /** The client's window: who is logged in, the cart and the selected product and card. */
  class ClientSession {
    /** The Клиент row joined at login; None for an account without one. */
    const clientId: Option<Id>
    var cart: seq<Line>
    var selectedProduct: Option<Id>
    var selectedCard: Option<Id>

    ghost predicate Valid()
      reads this
    {
      GoodCart(cart)
    }

    constructor (clientId: Option<Id>)
      ensures Valid()
      ensures this.clientId == clientId && cart == [] && selectedProduct == None && selectedCard == None
    {
      this.clientId := clientId;
      cart := [];
      selectedProduct := None;
      selectedCard := None;
    }

    /**
     * _on_product_select: `id` is the clicked row's id, None when no row is
     * selected or its id does not parse as an integer. The product is
     * selected only once its row is read; otherwise the previous selection stays.
     */
    method SelectProduct(products: map<Id, Product>, id: Option<Id>)
      modifies this
      ensures selectedProduct == if id.Some? && id.value in products then id else old(selectedProduct)
      ensures cart == old(cart) && selectedCard == old(selectedCard)
    {
      if id.None? {
        return;
      }
      if id.value !in products {
        return;
      }
      selectedProduct := id;
    }

    /**
     * _on_pay_select: `id` is the clicked row's id, None when no row is
     * selected or its id does not parse as an integer; then the previous
     * card stays selected. Any parsed id is taken, known card or not.
     */
    method SelectCard(id: Option<Id>)
      modifies this
      ensures selectedCard == if id.Some? then id else old(selectedCard)
      ensures cart == old(cart) && selectedProduct == old(selectedProduct)
    {
      if id.None? {
        return;
      }
      selectedCard := id;
    }

    /** _add_selected_to_cart: check the request, then merge it into the cart. */
    method AddSelectedToCart(db: Database, qtyText: string) returns (out: AddOutcome)
      requires Valid()
      modifies this
      ensures Valid()
      ensures out == AddVerdict(db.products, old(selectedProduct), qtyText)
      ensures cart == if out.Added? then Merge(old(cart), out.product, out.qty) else old(cart)
      ensures selectedProduct == old(selectedProduct) && selectedCard == old(selectedCard)
    {
      if !Chosen(selectedProduct) {
        return NoProductSelected;
      }
      var p := selectedProduct.value;
      var parsed := ParseInt(qtyText);
      if parsed.None? {
        return NotANumber;
      }
      var q := parsed.value;
      if q < 1 {
        return TooFew;
      }
      if p !in db.products {
        return UnknownProduct;
      }
      var available := db.products[p].stock;
      if available < q {
        return NotEnoughStock(available, q);
      }
      MergeLine(p, q);
      out := Added(p, q);
    }

    /** The merge loop of _add_selected_to_cart: find the product's line and add to it, or append a new line. */
    method MergeLine(p: Id, q: int)
      requires Valid() && q >= 1
      modifies this
      ensures Valid()
      ensures cart == Merge(old(cart), p, q)
      ensures selectedProduct == old(selectedProduct) && selectedCard == old(selectedCard)
    {
      var i := 0;
      while i < |cart| && cart[i].product != p
        invariant 0 <= i <= |cart|
        invariant forall j :: 0 <= j < i ==> cart[j].product != p
      {
        i := i + 1;
      }
      MergeKeepsGood(cart, p, q);
      if i < |cart| {
        cart := cart[i := Line(p, cart[i].qty + q)];
      } else {
        cart := cart + [Line(p, q)];
      }
    }

    /** The validation pass of _create_order: the first cart line whose product is missing or short. */
    method FindProblem(db: Database) returns (problem: Option<Problem>)
      ensures problem == FirstProblem(db.products, cart)
    {
      var i := 0;
      while i < |cart|
        invariant 0 <= i <= |cart|
        invariant forall j :: 0 <= j < i ==> LineProblem(db.products, cart[j]) == None
      {
        var line := cart[i];
        if line.product !in db.products {
          FirstProblemAt(db.products, cart, i);
          return Some(MissingProduct(line.product));
        }
        var available := db.products[line.product].stock;
        if available < line.qty {
          FirstProblemAt(db.products, cart, i);
          return Some(ShortStock(line.product, available, line.qty));
        }
        i := i + 1;
      }
      problem := None;
    }

    /**
     * _create_order: validate every line, then INSERT one order and UPDATE one
     * stock per line; commit and clear the cart, or roll back and keep it.
     */
    method CreateOrder(db: Database, payment: Id, today: Date, fault: Option<nat>) returns (out: CheckoutOutcome)
      requires db.Valid() && Valid()
      modifies this, db
      ensures db.Valid() && Valid()
      ensures out == CheckoutResult(old(db.products), old(db.cards), old(cart), payment, old(db.nextId), fault)
      ensures out.Placed? ==>
        && db.orders == old(db.orders) + NewOrders(old(db.nextId), old(cart), payment, today)
        && db.products == Decremented(old(db.products), old(cart))
        && db.nextId == old(db.nextId) + |old(cart)|
        && cart == []
      ensures !out.Placed? ==>
        db.orders == old(db.orders) && db.products == old(db.products) && db.nextId == old(db.nextId)
        && cart == old(cart)
      ensures db.cards == old(db.cards) && db.users == old(db.users)
      ensures db.clients == old(db.clients) && db.couriers == old(db.couriers)
      // The product list is reloaded after the commit, which resets the selected product.
      ensures selectedProduct == if out.Placed? then None else old(selectedProduct)
      ensures selectedCard == old(selectedCard)
    {
      var problem := FindProblem(db);
      if problem.Some? {
        return Refused(problem.value);
      }
      var committed, ids := InsertLines(db, payment, today, fault);
      if !committed {
        return RolledBack;
      }
      cart := [];
      selectedProduct := None;
      out := Placed(ids);
    }

    /** The insert loop of _create_order over a validated cart, with its commit or rollback. */
    method InsertLines(db: Database, payment: Id, today: Date, fault: Option<nat>) returns (committed: bool, ids: seq<Id>)
      requires db.Valid() && Valid() && FirstProblem(db.products, cart) == None
      modifies db
      ensures db.Valid()
      ensures committed <==> cart == [] || (payment in old(db.cards) && (fault.Some? ==> fault.value >= |cart|))
      ensures committed ==>
        && ids == Range(old(db.nextId), |cart|)
        && db.orders == old(db.orders) + NewOrders(old(db.nextId), cart, payment, today)
        && db.products == Decremented(old(db.products), cart)
        && db.nextId == old(db.nextId) + |cart|
      ensures !committed ==>
        db.orders == old(db.orders) && db.products == old(db.products) && db.nextId == old(db.nextId)
      ensures db.cards == old(db.cards) && db.users == old(db.users)
      ensures db.clients == old(db.clients) && db.couriers == old(db.couriers)
    {
      // The transaction's writes are held until the commit; a rollback discards them.
      var orders, products, next;
      committed, orders, products, next, ids := InsertLoop(db.orders, db.products, db.nextId, db.cards, cart, payment, today, fault);
      if committed {
        CheckoutValid(db.orders, db.products, db.nextId, cart, payment, today);
        db.orders, db.products, db.nextId := orders, products, next;
      }
    }

    /**
     * _add_payment. The card's client column is a required foreign key, so
     * the INSERT raises for a session without a Клиент row.
     */
    method AddPayment(db: Database, number: string, expiry: string, cvv: string, expiryIsDate: bool, fault: bool)
      returns (out: CardOutcome)
      requires db.Valid()
      modifies this, db
      ensures db.Valid()
      ensures out == AddCardVerdict(number, expiry, cvv, expiryIsDate, fault || clientId.None?)
      ensures out == Saved ==>
        && clientId.Some?
        && db.cards == old(db.cards)[old(db.nextId) := Card(clientId.value, Strip(number), Strip(expiry), Strip(cvv))]
        && db.nextId == old(db.nextId) + 1 && selectedCard == None
      ensures out != Saved ==> db.cards == old(db.cards) && db.nextId == old(db.nextId) && selectedCard == old(selectedCard)
      ensures db.products == old(db.products) && db.orders == old(db.orders) && db.users == old(db.users)
      ensures db.clients == old(db.clients) && db.couriers == old(db.couriers)
      ensures cart == old(cart) && selectedProduct == old(selectedProduct)
    {
      var n, e, c := Strip(number), Strip(expiry), Strip(cvv);
      if n == [] || e == [] || c == [] {
        return FieldsMissing;
      }
      if !expiryIsDate {
        return BadExpiry;
      }
      if fault || clientId.None? {
        return DbError;
      }
      var _ := InsertCard(db, Card(clientId.value, n, e, c));
      selectedCard := None;
      out := Saved;
    }

    /** _edit_payment. */
    method EditPayment(db: Database, number: string, expiry: string, cvv: string, fault: bool)
      returns (out: CardOutcome)
      requires db.Valid()
      modifies db
      ensures db.Valid()
      ensures (out, db.cards) == EditCard(old(db.cards), selectedCard, clientId, number, expiry, cvv, fault)
      ensures db.products == old(db.products) && db.orders == old(db.orders) && db.users == old(db.users)
      ensures db.clients == old(db.clients) && db.couriers == old(db.couriers) && db.nextId == old(db.nextId)
    {
      if !Chosen(selectedCard) {
        return NoCardSelected;
      }
      var n, e, c := Strip(number), Strip(expiry), Strip(cvv);
      if n == [] || e == [] || c == [] {
        return FieldsMissing;
      }
      if fault {
        return DbError;
      }
      var id := selectedCard.value;
      if OwnedBy(db.cards, id, clientId) {
        UpdateCard(db, id, Card(clientId.value, n, e, c));
      }
      out := Saved;
    }

    /** _delete_payment, after the yes/no question. */
    method DeletePayment(db: Database, confirmed: bool, fault: bool) returns (out: CardOutcome)
      requires db.Valid()
      modifies this, db
      ensures db.Valid()
      ensures (out, db.cards) == DeleteCard(old(db.cards), db.orders, old(selectedCard), clientId, confirmed, fault)
      ensures selectedCard == if out == Saved then None else old(selectedCard)
      ensures db.products == old(db.products) && db.orders == old(db.orders) && db.users == old(db.users)
      ensures db.clients == old(db.clients) && db.couriers == old(db.couriers) && db.nextId == old(db.nextId)
      ensures cart == old(cart) && selectedProduct == old(selectedProduct)
    {
      if !Chosen(selectedCard) {
        return NoCardSelected;
      }
      if !confirmed {
        return Declined;
      }
      if fault {
        return DbError;
      }
      var id := selectedCard.value;
      if OwnedBy(db.cards, id, clientId) {
        var referenced := exists o :: o in db.orders && db.orders[o].payment == id;
        if referenced {
          return DbError;
        }
        db.cards := db.cards - {id};
      }
      selectedCard := None;
      out := Saved;
    }
  }

  /** One INSERT into Платежные_данные under the next identity value. */
  method InsertCard(db: Database, c: Card) returns (id: Id)
    requires db.Valid()
    modifies db
    ensures db.Valid()
    ensures id == old(db.nextId) && db.cards == old(db.cards)[id := c] && db.nextId == id + 1
    ensures db.products == old(db.products) && db.orders == old(db.orders) && db.users == old(db.users)
    ensures db.clients == old(db.clients) && db.couriers == old(db.couriers)
  {
    id := db.nextId;
    db.cards, db.nextId := db.cards[id := c], id + 1;
  }

  /** One UPDATE of an existing card row. */
  method UpdateCard(db: Database, id: Id, c: Card)
    requires db.Valid() && id in db.cards
    modifies db
    ensures db.Valid()
    ensures db.cards == old(db.cards)[id := c] && db.nextId == old(db.nextId)
    ensures db.products == old(db.products) && db.orders == old(db.orders) && db.users == old(db.users)
    ensures db.clients == old(db.clients) && db.couriers == old(db.couriers)
  {
    db.cards := db.cards[id := c];
    assert db.cards.Keys == old(db.cards).Keys;
  }

  /**
   * The insert loop of _create_order on the table contents: one order per
   * line under consecutive identity values and one stock decrement per line;
   * the card must exist and insert number `fault` raises.
   */
  method InsertLoop(orders0: map<Id, Order>, products0: map<Id, Product>, next0: Id, cards: map<Id, Card>,
                    cart: seq<Line>, payment: Id, today: Date, fault: Option<nat>)
    returns (committed: bool, orders: map<Id, Order>, products: map<Id, Product>, next: Id, ids: seq<Id>)
    ensures committed <==> cart == [] || (payment in cards && (fault.Some? ==> fault.value >= |cart|))
    ensures committed ==>
      && ids == Range(next0, |cart|)
      && orders == orders0 + NewOrders(next0, cart, payment, today)
      && products == Decremented(products0, cart)
      && next == next0 + |cart|
  {
    orders, products, next := orders0, products0, next0;
    ids := [];
    var i := 0;
    while i < |cart|
      invariant 0 <= i <= |cart|
      invariant orders == orders0 + NewOrders(next0, cart[..i], payment, today)
      invariant products == Decremented(products0, cart[..i])
      invariant next == next0 + i
      invariant ids == Range(next0, i)
      invariant fault.Some? ==> fault.value >= i
      invariant i > 0 ==> payment in cards
    {
      if payment !in cards || fault == Some(i) {
        return false, orders0, products0, next0, [];
      }
      var line := cart[i];
      CheckoutStep(orders0, products0, next0, cart, i, payment, today);
      orders := orders[next := Order(payment, line.product, line.qty, Created, today, None)];
      ids := ids + [next];
      next := next + 1;
      if line.product in products {
        products := products[line.product := products[line.product].(stock := products[line.product].stock - line.qty)];
      }
      i := i + 1;
    }
    assert cart[..|cart|] == cart;
    committed := true;
  }

  /** One more line of the insert loop: its order and its stock UPDATE extend the prefix's. */
  lemma CheckoutStep(orders: map<Id, Order>, products: map<Id, Product>, next: Id, cart: seq<Line>, i: int,
                     payment: Id, today: Date)
    requires 0 <= i < |cart|
    ensures (orders + NewOrders(next, cart[..i], payment, today))[next + i :=
               Order(payment, cart[i].product, cart[i].qty, Created, today, None)]
            == orders + NewOrders(next, cart[..i + 1], payment, today)
    ensures TakeStock(Decremented(products, cart[..i]), cart[i]) == Decremented(products, cart[..i + 1])
  {
    assert cart[..i + 1][..i] == cart[..i];
  }

  /** The committed checkout keeps the database state: fresh ids, no negative stock, well-formed statuses. */
  lemma CheckoutValid(orders: map<Id, Order>, products: map<Id, Product>, next: Id, cart: seq<Line>,
                      payment: Id, today: Date)
    requires UniqueProducts(cart) && FirstProblem(products, cart) == None
    requires 1 <= next && IdsBelow(orders.Keys, next) && IdsBelow(products.Keys, next)
    requires forall id :: id in products ==> products[id].stock >= 0
    requires forall id :: id in orders ==> orders[id].status.WellFormed()
    ensures var o := orders + NewOrders(next, cart, payment, today);
      IdsBelow(o.Keys, next + |cart|) && forall id :: id in o ==> o[id].status.WellFormed()
    ensures var p := Decremented(products, cart);
      IdsBelow(p.Keys, next + |cart|) && forall id :: id in p ==> p[id].stock >= 0
  {
    NewOrdersExact(next, cart, payment, today);
    var added := NewOrders(next, cart, payment, today);
    assert forall id :: id in added ==> added[id].status == Created;
    DecrementedStock(products, cart, next);
    forall id | id in products ensures Decremented(products, cart)[id].stock >= 0 {
      CheckoutStock(products, cart, id);
    }
  }
}
