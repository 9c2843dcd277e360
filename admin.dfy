/**
 * The administrator screen (ui_admin.py): the table panel with its loader
 * dispatch and cell formatting, the add/edit/delete whitelists, the product
 * and user dialogs and the unguarded order-status edit.
 */
module AdminScreen {
  import opened Wrappers
  import opened Text
  import opened OrderStatus
  import opened Schema
  import CourierScreen

  // ---------- Tables and what may be done to them ----------

  const USER_TABLE := "Пользователь"
  const CLIENT_TABLE := "Клиент"
  const COURIER_TABLE := "Курьер"
  const PRODUCT_TABLE := "Товар"
  const ORDER_TABLE := "Заказ"
  const PAYMENT_TABLE := "Платежные_данные"

  /** The loader table of refresh_table, in the order its entries were written. */
  const LOADERS: seq<string> := [USER_TABLE, CLIENT_TABLE, COURIER_TABLE, PRODUCT_TABLE, ORDER_TABLE, PAYMENT_TABLE]

  const ADDABLE: seq<string> := [USER_TABLE, PRODUCT_TABLE]
  const EDITABLE: seq<string> := [USER_TABLE, PRODUCT_TABLE, ORDER_TABLE]
  const DELETABLE: seq<string> := [USER_TABLE, PRODUCT_TABLE, ORDER_TABLE]

  datatype Dialog = UserDialog | ProductDialog | OrderDialog

  /** What pressing add, edit or delete leads to. */
  datatype Dispatch = NoRowSelected | NoTableSelected | NotAllowed | Open(dialog: Dialog)

  /**
   * add_record on the current table (the empty string when none is shown):
   * only the user and product tables get a dialog.
   */
  function AddDispatch(current: string): (r: Dispatch)
    ensures r != NoRowSelected
    ensures r == NoTableSelected <==> current == ""
    ensures r.Open? <==> current in ADDABLE
    ensures r == Open(UserDialog) <==> current == USER_TABLE
    ensures r == Open(ProductDialog) <==> current == PRODUCT_TABLE
  {
    if current == "" then NoTableSelected
    else if current !in ADDABLE then NotAllowed
    else if current == USER_TABLE then Open(UserDialog)
    else Open(ProductDialog)
  }

  /** The editor dialog of each editable table. */
  function Editor(table: string): (r: Option<Dialog>)
    ensures r.Some? <==> table in EDITABLE
  {
    if table == USER_TABLE then Some(UserDialog)
    else if table == PRODUCT_TABLE then Some(ProductDialog)
    else if table == ORDER_TABLE then Some(OrderDialog)
    else None
  }

  /** edit_record: a row must be selected first, then a table shown, then the table must be editable. */
  function EditDispatch(rowSelected: bool, current: string): (r: Dispatch)
    ensures r == NoRowSelected <==> !rowSelected
    ensures r == NoTableSelected <==> rowSelected && current == ""
    ensures r.Open? <==> rowSelected && current in EDITABLE
    ensures r.Open? ==> Editor(current) == Some(r.dialog)
  {
    if !rowSelected then NoRowSelected
    else if current == "" then NoTableSelected
    else
      match Editor(current)
      case None => NotAllowed
      case Some(d) => Open(d)
  }

  /** The tables the panel shows but never writes: clients, couriers and payment data. */
  lemma ReadOnlyTables(t: string, rowSelected: bool)
    requires t == CLIENT_TABLE || t == COURIER_TABLE || t == PAYMENT_TABLE
    ensures AddDispatch(t) == NotAllowed
    ensures rowSelected ==> EditDispatch(rowSelected, t) == NotAllowed
    ensures t !in DELETABLE
  {
    assert t != "" && t != USER_TABLE && t != PRODUCT_TABLE && t != ORDER_TABLE by {
      assert t[0] == 'К' || t[0] == 'П';
      assert t == PAYMENT_TABLE ==> t[1] == 'л';
    }
  }

  /** Orders may be edited and deleted from the panel, never added. */
  lemma OrdersNotAddable()
    ensures AddDispatch(ORDER_TABLE) == NotAllowed
    ensures EditDispatch(true, ORDER_TABLE) == Open(OrderDialog)
    ensures ORDER_TABLE in DELETABLE
  {
    assert ORDER_TABLE[0] != USER_TABLE[0] && ORDER_TABLE[0] != PRODUCT_TABLE[0];
  }

  // ---------- The loader dispatch of refresh_table ----------

  /** The lower-cased table name occurs in the lower-cased current table name. */
  predicate Matches(current: string, name: string) {
    Contains(Lower(current), Lower(name))
  }

  /** The first loader from index i on whose name matches. */
  function FirstFrom(current: string, i: nat): (r: Option<nat>)
    requires i <= |LOADERS|
    ensures r.Some? ==>
      i <= r.value < |LOADERS| && Matches(current, LOADERS[r.value])
      && forall j :: i <= j < r.value ==> !Matches(current, LOADERS[j])
    ensures r.None? ==> forall j :: i <= j < |LOADERS| ==> !Matches(current, LOADERS[j])
    decreases |LOADERS| - i
  {
    if i == |LOADERS| then None
    else if Matches(current, LOADERS[i]) then Some(i)
    else FirstFrom(current, i + 1)
  }

  /** The loader refresh_table calls: none when no table is shown, else the first match. */
  function LoaderFor(current: string): (r: Option<nat>)
    ensures current == "" ==> r == None
    ensures r.Some? ==>
      r.value < |LOADERS| && Matches(current, LOADERS[r.value])
      && forall j :: 0 <= j < r.value ==> !Matches(current, LOADERS[j])
    ensures current != "" && r.None? ==> forall j :: 0 <= j < |LOADERS| ==> !Matches(current, LOADERS[j])
  {
    if current == "" then None else FirstFrom(current, 0)
  }

  /** A string contains itself. */
  lemma MatchesItself(t: string)
    ensures Matches(t, t)
  {
    var h := Lower(t);
    assert h[0..|h|] == h;
    assert OccursAt(h, h, 0);
  }

  /** An occurrence starts with the needle's first two characters. */
  lemma OccursStart(hay: string, needle: string, i: int)
    requires |needle| >= 2 && OccursAt(hay, needle, i)
    ensures hay[i] == needle[0] && hay[i + 1] == needle[1]
  {
    assert hay[i..i + |needle|][0] == needle[0];
    assert hay[i..i + |needle|][1] == needle[1];
  }

  /** Selecting one of the six tables by its exact name refreshes with that table's own loader. */
  lemma ExactNameLoadsItsTable(k: nat)
    requires k < |LOADERS|
    ensures LoaderFor(LOADERS[k]) == Some(k)
  {
    MatchesItself(LOADERS[k]);
    forall j | 0 <= j < k ensures !Matches(LOADERS[k], LOADERS[j]) {
      NoEarlierMatch(k, j);
    }
    assert LOADERS[k] != "";
  }

  /** No loader listed before a table's own matches that table's exact name. */
  lemma NoEarlierMatch(k: nat, j: nat)
    requires j < k < |LOADERS|
    ensures !Matches(LOADERS[k], LOADERS[j])
  {
    var h, n := Lower(LOADERS[k]), Lower(LOADERS[j]);
    LowerNames(k);
    LowerNames(j);
    if k == 5 {
      NotInPaymentTable(j);
    } else if |h| == |n| {
      assert h[1] != n[1];
    }
  }

  lemma NotInPaymentTable(j: nat)
    requires j < 5
    ensures !Contains("платежные_данные", ["пользователь", "клиент", "курьер", "товар", "заказ"][j])
  {
    var h, n := "платежные_данные", ["пользователь", "клиент", "курьер", "товар", "заказ"][j];
    forall i | OccursAt(h, n, i) ensures false {
      OccursStart(h, n, i);
    }
  }

  lemma LowerNames(j: nat)
    requires j < |LOADERS|
    ensures Lower(LOADERS[j]) == ["пользователь", "клиент", "курьер", "товар", "заказ", "платежные_данные"][j]
  {
  }

  // ---------- Cell formatting of load_table ----------

  /** A datetime value, field by field. */
  datatype Stamp = Stamp(year: nat, month: nat, day: nat, hour: nat, minute: nat, second: nat)
  {
    /** The fields fit the widths of the fixed format (a four-digit year, two digits for the rest). */
    predicate Fits() {
      year < 10000 && month < 100 && day < 100 && hour < 100 && minute < 100 && second < 100
    }
  }

  /** A column value as the database driver hands it over. */
  datatype Cell =
    | NullCell
    | BinaryCell(bytes: Bytes)
    | BoolCell(flag: bool)
    | StampCell(stamp: Stamp)
    | IntCell(n: int)
    | TextCell(text: string)
    | OtherCell(shown: string)   // a decimal, a date or another value, with the text str() gives it

  function Pow10(w: nat): (p: nat)
    ensures p >= 1
  {
    if w == 0 then 1 else 10 * Pow10(w - 1)
  }

  /** The w lowest decimal digits of n, zero-padded on the left. */
  function Digits(n: nat, w: nat): (r: string)
    ensures |r| == w && forall k :: 0 <= k < w ==> IsDigit(r[k])
  {
    if w == 0 then [] else Digits(n / 10, w - 1) + [DigitChar(n % 10)]
  }

  /** Reading the padded digits back gives the number, when it has at most w digits. */
  lemma {:induction false} DigitsValueOf(n: nat, w: nat)
    requires n < Pow10(w)
    ensures DigitsValue(Digits(n, w)) == n
  {
    if w > 0 {
      var d := Digits(n / 10, w - 1);
      var r := d + [DigitChar(n % 10)];
      assert r[..|r| - 1] == d;
      DigitsValueOf(n / 10, w - 1);
    }
  }

  /** Three numbers written with the widths w, 2 and 2 and one separator between each. */
  function Triple(a: nat, b: nat, c: nat, w: nat, sep: char): (r: string)
    ensures |r| == w + 6
  {
    Digits(a, w) + [sep] + Digits(b, 2) + [sep] + Digits(c, 2)
  }

  function ReadTriple(s: string, w: nat): (nat, nat, nat)
    requires |s| == w + 6
  {
    (DigitsValue(s[..w]), DigitsValue(s[w + 1..w + 3]), DigitsValue(s[w + 4..]))
  }

  lemma ReadWrittenTriple(a: nat, b: nat, c: nat, w: nat, sep: char)
    requires a < Pow10(w) && b < 100 && c < 100
    ensures ReadTriple(Triple(a, b, c, w, sep), w) == (a, b, c)
  {
    var x, y, z := Digits(a, w), Digits(b, 2), Digits(c, 2);
    var head := x + [sep] + y;
    var s := head + [sep] + z;
    assert s == Triple(a, b, c, w, sep);
    assert s[..w + 3] == head && s[w + 4..] == z;
    assert head[..w] == x && head[w + 1..] == y;
    assert s[..w] == x && s[w + 1..w + 3] == y;
    assert Pow10(2) == 100;
    DigitsValueOf(a, w);
    DigitsValueOf(b, 2);
    DigitsValueOf(c, 2);
  }

  /** strftime("%Y-%m-%d %H:%M:%S"). */
  function FormatStamp(t: Stamp): (r: string)
    ensures |r| == 19
  {
    Triple(t.year, t.month, t.day, 4, '-') + " " + Triple(t.hour, t.minute, t.second, 2, ':')
  }

  /** The six numbers of a stamp text. */
  function ReadStamp(s: string): Stamp
    requires |s| == 19
  {
    var (y, mo, d) := ReadTriple(s[..10], 4);
    var (h, mi, sec) := ReadTriple(s[11..], 2);
    Stamp(y, mo, d, h, mi, sec)
  }

  /** The formatted stamp holds every field, so two different stamps never display alike. */
  lemma ReadFormattedStamp(t: Stamp)
    ensures t.Fits() ==> ReadStamp(FormatStamp(t)) == t
  {
    if t.Fits() {
      var date, time := Triple(t.year, t.month, t.day, 4, '-'), Triple(t.hour, t.minute, t.second, 2, ':');
      var s := date + " " + time;
      assert s[..10] == date;
      assert s[11..] == time;
      assert Pow10(4) == 10000 && Pow10(2) == 100;
      ReadWrittenTriple(t.year, t.month, t.day, 4, '-');
      ReadWrittenTriple(t.hour, t.minute, t.second, 2, ':');
    }
  }

  /** The text load_table shows for one value; the tests run in this order, so a bool is never shown as a number. */
  function FormatCell(v: Cell): (r: string)
    ensures r == "" <==> v == NullCell || (v.TextCell? && v.text == "") || (v.OtherCell? && v.shown == "")
    ensures v.StampCell? ==> |r| == 19 && (v.stamp.Fits() ==> ReadStamp(r) == v.stamp)
    ensures v.IntCell? ==> ParseInt(r) == Some(v.n)
  {
    match v
    case NullCell => ""
    case BinaryCell(_) => "[BINARY DATA]"
    case BoolCell(b) => if b then "Да" else "Нет"
    case StampCell(t) =>
      ReadFormattedStamp(t);
      FormatStamp(t)
    case IntCell(n) =>
      ParseIntToString(n);
      IntToString(n)
    case TextCell(t) => t
    case OtherCell(t) => t
  }

  // ---------- The product dialogs ----------

  /** What the checks of a product dialog make of its three entries. */
  datatype ProductCheck = NameMissing | BadPrice | BadQuantity | Accepted(name: string, price: real, qty: int)

  /**
   * The checks of AddProductDialog.save and EditProductDialog.save, in their
   * order: the stripped name, then the price, then the quantity. `price` is
   * what float() makes of the stripped price text with its commas read as
   * points, None where it raises.
   */
  function CheckProduct(nameText: string, price: Option<real>, qtyText: string): (r: ProductCheck)
    ensures r == NameMissing <==> Blank(nameText)
    ensures r == BadPrice <==> !Blank(nameText) && (price.None? || price.value <= 0.0)
    ensures r.Accepted? <==>
      && !Blank(nameText) && price.Some? && price.value > 0.0
      && ParseInt(Strip(qtyText)).Some? && ParseInt(Strip(qtyText)).value >= 0
    ensures r.Accepted? ==>
      r.name == Strip(nameText) && r.name != [] && price == Some(r.price) && r.price > 0.0
      && ParseInt(Strip(qtyText)) == Some(r.qty) && r.qty >= 0
  {
    var name := Strip(nameText);
    if name == [] then NameMissing
    else if price.None? || price.value <= 0.0 then BadPrice
    else
      match ParseInt(Strip(qtyText))
      case None => BadQuantity
      case Some(q) => if q < 0 then BadQuantity else Accepted(name, price.value, q)
  }

  datatype SaveOutcome = NothingSelected | Rejected(check: ProductCheck) | SaveFailed | Saved

  /** AddProductDialog.save: a checked product is inserted under a fresh identity value with the chosen image, if any. */
  method AddProduct(db: Database, nameText: string, price: Option<real>, qtyText: string, image: Option<Bytes>,
                    fault: bool)
    returns (out: SaveOutcome)
    requires db.Valid()
    modifies db
    ensures db.Valid()
    ensures var c := CheckProduct(nameText, price, qtyText);
      && (!c.Accepted? ==> out == Rejected(c))
      && (c.Accepted? ==> out == if fault then SaveFailed else Saved)
      && (out == Saved ==>
            db.products == old(db.products)[old(db.nextId) := Product(c.name, c.price, c.qty, image)]
            && db.nextId == old(db.nextId) + 1)
    ensures out != Saved ==> db.products == old(db.products) && db.nextId == old(db.nextId)
    ensures db.orders == old(db.orders) && db.cards == old(db.cards) && db.users == old(db.users)
    ensures db.clients == old(db.clients) && db.couriers == old(db.couriers)
  {
    var c := CheckProduct(nameText, price, qtyText);
    if !c.Accepted? {
      return Rejected(c);
    }
    out := InsertProduct(db, Product(c.name, c.price, c.qty, image), fault);
  }

  /** The INSERT into Товар, rolled back on an error. */
  method InsertProduct(db: Database, p: Product, fault: bool) returns (out: SaveOutcome)
    requires db.Valid() && p.stock >= 0
    modifies db
    ensures db.Valid()
    ensures out == if fault then SaveFailed else Saved
    ensures out == Saved ==> db.products == old(db.products)[old(db.nextId) := p] && db.nextId == old(db.nextId) + 1
    ensures out != Saved ==> db.products == old(db.products) && db.nextId == old(db.nextId)
    ensures db.orders == old(db.orders) && db.cards == old(db.cards) && db.users == old(db.users)
    ensures db.clients == old(db.clients) && db.couriers == old(db.couriers)
  {
    if fault {
      return SaveFailed;
    }
    var id := db.nextId;
    IdsBelowInsert(db.products.Keys, id);
    db.products, db.nextId := db.products[id := p], id + 1;
    out := Saved;
  }

  /**
   * The row EditProductDialog.save writes over a product: name, price and
   * quantity always, the image only when the dialog holds image bytes.
   */
  function EditedProduct(old_: Product, c: ProductCheck, image: Option<Bytes>): (p: Product)
    requires c.Accepted?
    ensures p.name == c.name && p.price == c.price && p.stock == c.qty
    ensures p.image == if image.Some? then image else old_.image
  {
    if image.Some? then Product(c.name, c.price, c.qty, image)
    else old_.(name := c.name, price := c.price, stock := c.qty)
  }

  /** Without new image bytes the stored image survives any number of edits. */
  lemma {:induction false} ImageKeptWithoutBytes(p: Product, edits: seq<ProductCheck>)
    requires forall k :: 0 <= k < |edits| ==> edits[k].Accepted?
    ensures Replay(p, edits).image == p.image
    decreases |edits|
  {
    if edits != [] {
      ImageKeptWithoutBytes(p, edits[..|edits| - 1]);
    }
  }

  /** A product after a series of edits made without image bytes. */
  function Replay(p: Product, edits: seq<ProductCheck>): Product
    requires forall k :: 0 <= k < |edits| ==> edits[k].Accepted?
    decreases |edits|
  {
    if edits == [] then p else EditedProduct(Replay(p, edits[..|edits| - 1]), edits[|edits| - 1], None)
  }

  /** EditProductDialog.save: nothing without a product id; then the checks; then the UPDATE of that row, if it is still there. */
  method EditProduct(db: Database, productId: Option<Id>, nameText: string, price: Option<real>, qtyText: string,
                     image: Option<Bytes>, fault: bool)
    returns (out: SaveOutcome)
    requires db.Valid()
    modifies db
    ensures db.Valid()
    ensures var c := CheckProduct(nameText, price, qtyText);
      && (!Chosen(productId) ==> out == NothingSelected)
      && (Chosen(productId) && !c.Accepted? ==> out == Rejected(c))
      && (Chosen(productId) && c.Accepted? ==> out == if fault then SaveFailed else Saved)
      && (out == Saved && productId.value in old(db.products) ==>
            db.products == old(db.products)[productId.value := EditedProduct(old(db.products)[productId.value], c, image)])
    ensures out != Saved || productId.value !in old(db.products) ==> db.products == old(db.products)
    ensures db.orders == old(db.orders) && db.cards == old(db.cards) && db.users == old(db.users)
    ensures db.clients == old(db.clients) && db.couriers == old(db.couriers) && db.nextId == old(db.nextId)
  {
    if !Chosen(productId) {
      return NothingSelected;
    }
    var c := CheckProduct(nameText, price, qtyText);
    if !c.Accepted? {
      return Rejected(c);
    }
    out := UpdateProduct(db, productId.value, c, image, fault);
  }

  /** The UPDATE of one Товар row, rolled back on an error; a row that is gone is not recreated. */
  method UpdateProduct(db: Database, id: Id, c: ProductCheck, image: Option<Bytes>, fault: bool) returns (out: SaveOutcome)
    requires db.Valid() && c.Accepted? && c.qty >= 0
    modifies db
    ensures db.Valid()
    ensures out == if fault then SaveFailed else Saved
    ensures out == Saved && id in old(db.products) ==>
      db.products == old(db.products)[id := EditedProduct(old(db.products)[id], c, image)]
    ensures out != Saved || id !in old(db.products) ==> db.products == old(db.products)
    ensures db.orders == old(db.orders) && db.cards == old(db.cards) && db.users == old(db.users)
    ensures db.clients == old(db.clients) && db.couriers == old(db.couriers) && db.nextId == old(db.nextId)
  {
    if fault {
      return SaveFailed;
    }
    if id in db.products {
      db.products := db.products[id := EditedProduct(db.products[id], c, image)];
      assert db.products.Keys == old(db.products).Keys;
    }
    out := Saved;
  }

  // ---------- The user dialogs ----------

  /** The text EditUserDialog puts in the password entry in place of the stored password. */
  const PASSWORD_PLACEHOLDER := "********"

  /** EditUserDialog.save hashes the entry only when it is not empty and is not the placeholder. */
  predicate PasswordChanged(text: string) {
    text != "" && text != PASSWORD_PLACEHOLDER
  }

  /** The Пользователь row after EditUserDialog.save: e-mail, role and active flag always, the hash only for a changed password. */
  function EditedUser(u: User, emailText: string, role: string, activeText: string, passwordText: string,
                      hash: Hasher): (r: User)
    ensures r.login == u.login && r.registered == u.registered
    ensures r.email == StrippedOrNull(emailText) && r.role == role && r.active == (activeText == "Да")
    ensures r.hash == if PasswordChanged(passwordText) then hash(passwordText) else u.hash
  {
    var v := u.(email := StrippedOrNull(emailText), role := role, active := activeText == "Да");
    if PasswordChanged(passwordText) then v.(hash := hash(passwordText)) else v
  }

  /** Leaving the placeholder (or clearing the entry) keeps the stored password, so "********" itself can never be set here. */
  lemma PlaceholderKeepsPassword(u: User, emailText: string, role: string, activeText: string, hash: Hasher)
    ensures EditedUser(u, emailText, role, activeText, PASSWORD_PLACEHOLDER, hash).hash == u.hash
    ensures EditedUser(u, emailText, role, activeText, "", hash).hash == u.hash
  {
  }

  /** The login is never edited, so logins stay unique. */
  lemma EditKeepsUniqueLogins(users: map<Id, User>, id: Id, emailText: string, role: string, activeText: string,
                              passwordText: string, hash: Hasher)
    requires UniqueLogins(users) && id in users
    ensures UniqueLogins(users[id := EditedUser(users[id], emailText, role, activeText, passwordText, hash)])
  {
    ReplaceKeepsUnique(users, id, EditedUser(users[id], emailText, role, activeText, passwordText, hash));
  }

  datatype UserOutcome = CredentialsMissing | UserFailed | UserSaved

  /** AddUserDialog.save: a stripped login and a raw password are required; role and active flag are as chosen; a taken login rolls back. */
  method AddUser(db: Database, loginText: string, password: string, emailText: string, role: string, activeText: string,
                 hash: Hasher, now: Date, fault: bool)
    returns (out: UserOutcome)
    requires db.Valid()
    modifies db
    ensures db.Valid()
    ensures out == CredentialsMissing <==> Blank(loginText) || password == ""
    ensures out == UserSaved <==>
      !Blank(loginText) && password != "" && !LoginTaken(old(db.users), Strip(loginText)) && !fault
    ensures out == UserSaved ==>
      db.users == old(db.users)[old(db.nextId) :=
        User(Strip(loginText), hash(password), StrippedOrNull(emailText), role, now, activeText == "Да")]
      && db.nextId == old(db.nextId) + 1
    ensures out != UserSaved ==> db.users == old(db.users) && db.nextId == old(db.nextId)
    ensures db.products == old(db.products) && db.orders == old(db.orders) && db.cards == old(db.cards)
    ensures db.clients == old(db.clients) && db.couriers == old(db.couriers)
  {
    var login := Strip(loginText);
    if login == [] || password == "" {
      return CredentialsMissing;
    }
    var u := User(login, hash(password), StrippedOrNull(emailText), role, now, activeText == "Да");
    if LoginTaken(db.users, login) || fault {
      return UserFailed;
    }
    var _ := InsertUser(db, u);
    out := UserSaved;
  }

  /** EditUserDialog.save: the UPDATE of the dialog's user row, if there is one; no entry is checked. */
  method EditUser(db: Database, userId: Option<Id>, emailText: string, role: string, activeText: string,
                  passwordText: string, hash: Hasher, fault: bool)
    returns (out: UserOutcome)
    requires db.Valid()
    modifies db
    ensures db.Valid()
    ensures out == if fault then UserFailed else UserSaved
    ensures out == UserSaved && userId.Some? && userId.value in old(db.users) ==>
      db.users == old(db.users)[userId.value :=
        EditedUser(old(db.users)[userId.value], emailText, role, activeText, passwordText, hash)]
    ensures out != UserSaved || userId.None? || userId.value !in old(db.users) ==> db.users == old(db.users)
    ensures db.products == old(db.products) && db.orders == old(db.orders) && db.cards == old(db.cards)
    ensures db.clients == old(db.clients) && db.couriers == old(db.couriers) && db.nextId == old(db.nextId)
  {
    if fault {
      return UserFailed;
    }
    if userId.Some? && userId.value in db.users {
      var id := userId.value;
      EditKeepsUniqueLogins(db.users, id, emailText, role, activeText, passwordText, hash);
      db.users := db.users[id := EditedUser(db.users[id], emailText, role, activeText, passwordText, hash)];
      assert db.users.Keys == old(db.users).Keys;
    }
    out := UserSaved;
  }

  // ---------- The order dialog ----------

  /** EditOrderDialog.save on the order table: whatever text is chosen becomes the status, from any status. */
  function SetStatus(orders: map<Id, Order>, selected: Option<Id>, text: string): (r: map<Id, Order>)
    ensures r.Keys == orders.Keys
    ensures forall id :: id in orders && selected != Some(id) ==> r[id] == orders[id]
    ensures selected.Some? && selected.value in orders ==>
      r[selected.value] == orders[selected.value].(status := Parse(text))
  {
    if selected.Some? && selected.value in orders then
      orders[selected.value := orders[selected.value].(status := Parse(text))]
    else orders
  }

  /** The administrator can move a delivered order back, which the courier screen refuses. */
  lemma AdminReopensDelivered(orders: map<Id, Order>, id: Id, courier: Option<Id>, text: string, fault: Option<nat>)
    requires id in orders && orders[id].status == Delivered && text != DELIVERED
    ensures CourierScreen.ChangeStatus(orders, Some(id), courier, text, fault).1 == orders
    ensures SetStatus(orders, Some(id), text)[id].status != Delivered
    ensures SetStatus(orders, Some(id), text)[id].status == Parse(text)
  {
    assert Name(Parse(text)) == text;
  }

  method EditOrderStatus(db: Database, selected: Option<Id>, text: string, fault: bool) returns (out: SaveOutcome)
    requires db.Valid()
    modifies db
    ensures db.Valid()
    ensures out == if fault then SaveFailed else Saved
    ensures db.orders == if fault then old(db.orders) else SetStatus(old(db.orders), selected, text)
    ensures db.products == old(db.products) && db.cards == old(db.cards) && db.users == old(db.users)
    ensures db.clients == old(db.clients) && db.couriers == old(db.couriers) && db.nextId == old(db.nextId)
  {
    if fault {
      return SaveFailed;
    }
    db.orders := SetStatus(db.orders, selected, text);
    out := Saved;
  }

  // ---------- Deleting a row ----------

  /**
   * Every reference between rows resolves: a profile to its user, an order
   * to its product, card and courier, a card to its client. The foreign keys
   * of the schema keep this, with no cascading delete.
   */
  predicate Linked(users: map<Id, User>, clients: map<Id, ClientProfile>, couriers: map<Id, CourierProfile>,
                   products: map<Id, Product>, orders: map<Id, Order>, cards: map<Id, Card>)
  {
    && (forall c :: c in clients ==> clients[c].user in users)
    && (forall k :: k in couriers ==> couriers[k].user in users)
    && (forall o :: o in orders ==> orders[o].product in products && orders[o].payment in cards)
    && (forall o :: o in orders && orders[o].courier.Some? ==> orders[o].courier.value in couriers)
    && (forall d :: d in cards ==> cards[d].client in clients)
  }

  /** Some row of another table still refers to row `id` of `table`, so the database refuses to delete it. */
  predicate Referenced(table: string, id: Id, clients: map<Id, ClientProfile>, couriers: map<Id, CourierProfile>,
                       orders: map<Id, Order>)
  {
    || (table == USER_TABLE
        && ((exists c :: c in clients && clients[c].user == id) || (exists k :: k in couriers && couriers[k].user == id)))
    || (table == PRODUCT_TABLE && exists o :: o in orders && orders[o].product == id)
  }

  /** Deleting a row nothing refers to leaves every reference resolvable. */
  lemma DeleteKeepsLinked(table: string, id: Id, users: map<Id, User>, clients: map<Id, ClientProfile>,
                          couriers: map<Id, CourierProfile>, products: map<Id, Product>, orders: map<Id, Order>,
                          cards: map<Id, Card>)
    requires Linked(users, clients, couriers, products, orders, cards)
    requires table in DELETABLE && !Referenced(table, id, clients, couriers, orders)
    ensures Linked(if table == USER_TABLE then users - {id} else users, clients, couriers,
                   if table == PRODUCT_TABLE then products - {id} else products,
                   if table == ORDER_TABLE then orders - {id} else orders, cards)
  {
    if table == USER_TABLE {
      forall c | c in clients ensures clients[c].user in users - {id} {
        assert clients[c].user != id;
      }
      forall k | k in couriers ensures couriers[k].user in users - {id} {
        assert couriers[k].user != id;
      }
    } else if table == PRODUCT_TABLE {
      forall o | o in orders ensures orders[o].product in products - {id} {
        assert orders[o].product != id;
      }
    }
  }

  datatype DeleteOutcome = NoRow | NoTable | NotDeletable | Declined | DeleteFailed | Deleted

  /** delete_record's guards in order: a selected row, a shown table, a deletable table, the confirmation, then the DELETE. */
  function DeleteVerdict(rowSelected: bool, current: string, confirmed: bool, fault: bool, referenced: bool)
    : (r: DeleteOutcome)
    ensures r == Deleted <==> rowSelected && current in DELETABLE && confirmed && !fault && !referenced
    ensures r == NotDeletable <==> rowSelected && current != "" && current !in DELETABLE
    ensures r == DeleteFailed <==> rowSelected && current in DELETABLE && confirmed && (fault || referenced)
  {
    if !rowSelected then NoRow
    else if current == "" then NoTable
    else if current !in DELETABLE then NotDeletable
    else if !confirmed then Declined
    else if fault || referenced then DeleteFailed
    else Deleted
  }

  // ---------- The table panel ----------

  /** The shown rows are the formatted query rows, value by value. */
  predicate Shows(data: seq<seq<string>>, rows: seq<seq<Cell>>) {
    && |data| == |rows|
    && forall i :: 0 <= i < |rows| ==>
         |data[i]| == |rows[i]| && forall j :: 0 <= j < |rows[i]| ==> data[i][j] == FormatCell(rows[i][j])
  }

  /** The administrator's table panel: the table shown (empty before any is chosen) and its formatted rows. */
  class AdminPanel {
    var currentTable: string
    var tableData: seq<seq<string>>

    constructor ()
      ensures currentTable == "" && tableData == []
    {
      currentTable := "";
      tableData := [];
    }

    /** load_table: remember the table, then format every value of every row the query returned. */
    method LoadTable(name: string, rows: seq<seq<Cell>>)
      modifies this
      ensures currentTable == name
      ensures Shows(tableData, rows)
    {
      currentTable := name;
      tableData := [];
      var i := 0;
      while i < |rows|
        invariant 0 <= i <= |rows| && |tableData| == i && currentTable == name
        invariant forall k :: 0 <= k < i ==>
          |tableData[k]| == |rows[k]| && forall j :: 0 <= j < |rows[k]| ==> tableData[k][j] == FormatCell(rows[k][j])
      {
        var formatted: seq<string> := [];
        var j := 0;
        while j < |rows[i]|
          invariant 0 <= j <= |rows[i]| && |formatted| == j
          invariant forall m :: 0 <= m < j ==> formatted[m] == FormatCell(rows[i][m])
        {
          formatted := formatted + [FormatCell(rows[i][j])];
          j := j + 1;
        }
        tableData := tableData + [formatted];
        i := i + 1;
      }
    }

    /** refresh_table: the loader to call, found by walking the loader table until the first match. */
    method RefreshTable() returns (loader: Option<nat>)
      ensures loader == LoaderFor(currentTable)
    {
      loader := None;
      if currentTable == "" {
        return;
      }
      var i := 0;
      while i < |LOADERS|
        invariant 0 <= i <= |LOADERS|
        invariant FirstFrom(currentTable, i) == FirstFrom(currentTable, 0)
      {
        if Contains(Lower(currentTable), Lower(LOADERS[i])) {
          loader := Some(i);
          break;
        }
        i := i + 1;
      }
    }

    /** delete_record on the shown table; the row's table loses only that row, and only when nothing refers to it. */
    method DeleteRecord(db: Database, selected: Option<Id>, confirmed: bool, fault: bool) returns (out: DeleteOutcome)
      requires db.Valid()
      modifies db
      ensures db.Valid()
      ensures out == DeleteVerdict(selected.Some?, currentTable, confirmed, fault,
        selected.Some? && Referenced(currentTable, selected.value, old(db.clients), old(db.couriers), old(db.orders)))
      ensures db.users == if out == Deleted && currentTable == USER_TABLE then old(db.users) - {selected.value} else old(db.users)
      ensures db.products ==
        if out == Deleted && currentTable == PRODUCT_TABLE then old(db.products) - {selected.value} else old(db.products)
      ensures db.orders ==
        if out == Deleted && currentTable == ORDER_TABLE then old(db.orders) - {selected.value} else old(db.orders)
      ensures db.cards == old(db.cards) && db.clients == old(db.clients) && db.couriers == old(db.couriers)
      ensures db.nextId == old(db.nextId)
      ensures Linked(old(db.users), old(db.clients), old(db.couriers), old(db.products), old(db.orders), old(db.cards))
              ==> Linked(db.users, db.clients, db.couriers, db.products, db.orders, db.cards)
    {
      if selected.None? {
        return NoRow;
      }
      if currentTable == "" {
        return NoTable;
      }
      if currentTable !in DELETABLE {
        return NotDeletable;
      }
      if !confirmed {
        return Declined;
      }
      var id := selected.value;
      if fault || Referenced(currentTable, id, db.clients, db.couriers, db.orders) {
        return DeleteFailed;
      }
      if Linked(db.users, db.clients, db.couriers, db.products, db.orders, db.cards) {
        DeleteKeepsLinked(currentTable, id, db.users, db.clients, db.couriers, db.products, db.orders, db.cards);
      }
      RemoveRow(db, currentTable, id);
      out := Deleted;
    }
  }

  /** The DELETE itself, on one of the three deletable tables. */
  method RemoveRow(db: Database, table: string, id: Id)
    requires db.Valid() && table in DELETABLE
    modifies db
    ensures db.Valid()
    ensures db.users == if table == USER_TABLE then old(db.users) - {id} else old(db.users)
    ensures db.products == if table == PRODUCT_TABLE then old(db.products) - {id} else old(db.products)
    ensures db.orders == if table == ORDER_TABLE then old(db.orders) - {id} else old(db.orders)
    ensures db.cards == old(db.cards) && db.clients == old(db.clients) && db.couriers == old(db.couriers)
    ensures db.nextId == old(db.nextId)
  {
    if table == USER_TABLE {
      db.users := db.users - {id};
    } else if table == PRODUCT_TABLE {
      db.products := db.products - {id};
    } else {
      db.orders := db.orders - {id};
    }
  }
}
