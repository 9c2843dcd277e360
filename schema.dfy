/**
 * The shop database held in memory: one map per table from the row's identity
 * value to the row, and one counter that hands out fresh identity values.
 * Only the columns the screens read or write are kept.
 */
module Schema {
  import opened Wrappers
  import opened OrderStatus

  type Id = int

  /** A date or time stamp (Дата_заказа, Дата_регистрации), kept only for its order. */
  type Date = int

  type Bytes = seq<bv8>

  /** A row of Товар. */
  datatype Product = Product(name: string, price: real, stock: int, image: Option<Bytes>)

  /** A row of Заказ: one product line, paid with one card, optionally assigned to a courier. */
  datatype Order = Order(payment: Id, product: Id, qty: int, status: Status, date: Date, courier: Option<Id>)

  /** A row of Платежные_данные. */
  datatype Card = Card(client: Id, number: string, expiry: string, cvv: string)

  /** A row of Пользователь. */
  datatype User = User(login: string, hash: Bytes, email: Option<string>, role: string, registered: Date, active: bool)

  /** A row of Клиент. */
  datatype ClientProfile = ClientProfile(
    user: Id, lastName: string, firstName: string, middleName: string,
    passportSeries: string, passportNumber: string,
    city: string, street: string, house: string, flat: Option<string>)

  /** A row of Курьер. */
  datatype CourierProfile = CourierProfile(
    user: Id, lastName: string, firstName: string, middleName: string, phone: string)

  const ADMIN_ROLE := "Администратор"
  const CLIENT_ROLE := "Клиент"
  const COURIER_ROLE := "Курьер"

  /** A password hash function (SHA-256 in the system); it is a parameter of the operations that store or check passwords. */
  type Hasher = string -> Bytes

  /** Python's truth test on a selected identity value: nothing selected, or the value 0, counts as no selection. */
  predicate Chosen(selected: Option<Id>) {
    selected.Some? && selected.value != 0
  }

  /** Some user already has this login; the login column is unique, so inserting it again fails. */
  predicate LoginTaken(users: map<Id, User>, login: string) {
    exists id :: id in users && users[id].login == login
  }

  predicate UniqueLogins(users: map<Id, User>) {
    forall a, b :: a in users && b in users && users[a].login == users[b].login ==> a == b
  }

  /** A new login keeps logins unique. */
  lemma AddUserKeepsUnique(users: map<Id, User>, id: Id, u: User)
    requires UniqueLogins(users) && id !in users && !LoginTaken(users, u.login)
    ensures UniqueLogins(users[id := u])
  {
  }

  /** Rewriting a row without touching its login keeps logins unique. */
  lemma ReplaceKeepsUnique(users: map<Id, User>, id: Id, u: User)
    requires UniqueLogins(users) && id in users && u.login == users[id].login
    ensures UniqueLogins(users[id := u])
  {
    var edited := users[id := u];
    forall a, b | a in edited && b in edited && edited[a].login == edited[b].login ensures a == b {
      assert edited[a].login == users[a].login && edited[b].login == users[b].login;
    }
  }

  /** Every identity value in use is at least 1 and below the next one to be handed out. */
  predicate IdsBelow(keys: set<Id>, next: Id) {
    forall id :: id in keys ==> 1 <= id < next
  }

  /** Raising the counter keeps every identity value below it. */
  lemma IdsBelowRaise(keys: set<Id>, next: Id, later: Id)
    requires IdsBelow(keys, next) && next <= later
    ensures IdsBelow(keys, later)
  {
  }

  /** Inserting under the counter's value and advancing it keeps every identity value below it. */
  lemma IdsBelowInsert(keys: set<Id>, next: Id)
    requires IdsBelow(keys, next) && 1 <= next
    ensures IdsBelow(keys + {next}, next + 1)
  {
  }

  predicate StrictlyIncreasing(s: seq<Id>) {
    forall i, j :: 0 <= i < j < |s| ==> s[i] < s[j]
  }

  lemma Pick(s: set<Id>) returns (y: Id)
    requires s != {}
    ensures y in s
  {
    if forall x :: x !in s {
      assert false;
    }
    y :| y in s;
  }

  lemma MinExists(s: set<Id>)
    requires s != {}
    ensures exists m :: m in s && forall x :: x in s ==> m <= x
    decreases |s|
  {
    var y := Pick(s);
    var rest := s - {y};
    assert s == rest + {y};
    if rest == {} {
      assert s == {y};
    } else {
      MinExists(rest);
      var m :| m in rest && forall x :: x in rest ==> m <= x;
      var least := if y < m then y else m;
      assert forall x :: x in s ==> x == y || x in rest;
      assert least in s && forall x :: x in s ==> least <= x;
    }
  }

  function Min(s: set<Id>): (m: Id)
    requires s != {}
    ensures m in s && forall x :: x in s ==> m <= x
  {
    MinExists(s);
    var m :| m in s && forall x :: x in s ==> m <= x; m
  }

  /** The identity values of a set in ascending order, as `ORDER BY <id>` returns them. */
  function Ascending(s: set<Id>): (r: seq<Id>)
    ensures StrictlyIncreasing(r)
    ensures forall x :: x in r <==> x in s
    ensures |r| == |s|
    decreases |s|
  {
    if s == {} then []
    else
      var m := Min(s);
      var rest := Ascending(s - {m});
      assert forall x :: x in rest ==> m < x;
      [m] + rest
  }

  class Database {
    var products: map<Id, Product>
    var orders: map<Id, Order>
    var cards: map<Id, Card>
    var users: map<Id, User>
    var clients: map<Id, ClientProfile>
    var couriers: map<Id, CourierProfile>
    /** The next identity value; inserts take it and advance it. */
    var nextId: Id

    /** The database state the operations keep: fresh ids, unique logins, stock never negative, statuses read back as written. */
    ghost predicate Valid()
      reads this
    {
      && 1 <= nextId
      && IdsBelow(products.Keys, nextId) && IdsBelow(orders.Keys, nextId) && IdsBelow(cards.Keys, nextId)
      && IdsBelow(users.Keys, nextId) && IdsBelow(clients.Keys, nextId) && IdsBelow(couriers.Keys, nextId)
      && UniqueLogins(users)
      && (forall id :: id in products ==> products[id].stock >= 0)
      && (forall id :: id in orders ==> orders[id].status.WellFormed())
    }

    /** An empty database. */
    constructor ()
      ensures Valid()
      ensures products == map[] && orders == map[] && cards == map[]
      ensures users == map[] && clients == map[] && couriers == map[]
      ensures nextId == 1
    {
      products, orders, cards := map[], map[], map[];
      users, clients, couriers := map[], map[], map[];
      nextId := 1;
    }
  }

  /** One INSERT into Пользователь under the next identity value. */
  method InsertUser(db: Database, u: User) returns (id: Id)
    requires db.Valid() && !LoginTaken(db.users, u.login)
    modifies db
    ensures db.Valid()
    ensures id == old(db.nextId) && db.users == old(db.users)[id := u] && db.nextId == id + 1
    ensures db.clients == old(db.clients) && db.couriers == old(db.couriers)
    ensures db.products == old(db.products) && db.orders == old(db.orders) && db.cards == old(db.cards)
  {
    id := db.nextId;
    AddUserKeepsUnique(db.users, id, u);
    db.users, db.nextId := db.users[id := u], id + 1;
  }
}
