/**
 * Self-registration and the administrator manager (ui_login.py): the
 * role-dependent required-field check, the user-then-profile inserts of one
 * transaction, and adding an administrator.
 */
module Registration {
  import opened Wrappers
  import opened Text
  import opened Schema

  /** The entries of the registration window, as typed. */
  datatype Form = Form(
    login: string, password: string, email: string,
    lastName: string, firstName: string, middleName: string,
    passportSeries: string, passportNumber: string,
    city: string, street: string, house: string, flat: string,
    phone: string)

  /** The fields the check may report, in the order it checks them. */
  datatype Field =
    | Login | Password | LastName | FirstName | MiddleName
    | PassportSeries | PassportNumber | City | Street | House
    | Phone

  /** The name the warning lists for a field. */
  function Label(f: Field): string {
    match f
    case Login => "Логин"
    case Password => "Пароль"
    case LastName => "Фамилия"
    case FirstName => "Имя"
    case MiddleName => "Отчество"
    case PassportSeries => "Серия паспорта"
    case PassportNumber => "Номер паспорта"
    case City => "Город"
    case Street => "Улица"
    case House => "Дом"
    case Phone => "Телефон"
  }

  /** The position of a field in the check order. */
  function Rank(f: Field): nat {
    match f
    case Login => 0 case Password => 1 case LastName => 2 case FirstName => 3 case MiddleName => 4
    case PassportSeries => 5 case PassportNumber => 6 case City => 7 case Street => 8 case House => 9
    case Phone => 10
  }

  function Entry(form: Form, f: Field): string {
    match f
    case Login => form.login
    case Password => form.password
    case LastName => form.lastName
    case FirstName => form.firstName
    case MiddleName => form.middleName
    case PassportSeries => form.passportSeries
    case PassportNumber => form.passportNumber
    case City => form.city
    case Street => form.street
    case House => form.house
    case Phone => form.phone
  }

  /** A field counts as filled when something other than whitespace was typed; the password is not stripped. */
  predicate Filled(form: Form, f: Field) {
    if f == Password then form.password != "" else !Blank(Entry(form, f))
  }

  const COMMON: seq<Field> := [Login, Password, LastName, FirstName, MiddleName]
  const CLIENT_EXTRA: seq<Field> := [PassportSeries, PassportNumber, City, Street, House]

  /** The fields required of a role: five for everyone, then the passport and address of a client or the phone of a courier. */
  function Required(role: string): seq<Field> {
    COMMON + (if role == CLIENT_ROLE then CLIENT_EXTRA else if role == COURIER_ROLE then [Phone] else [])
  }

  predicate InCheckOrder(fs: seq<Field>) {
    forall i, j :: 0 <= i < j < |fs| ==> Rank(fs[i]) < Rank(fs[j])
  }

  /** The fields of fs left unfilled, keeping their order. */
  function Unfilled(form: Form, fs: seq<Field>): (r: seq<Field>)
    ensures forall f :: f in r <==> f in fs && !Filled(form, f)
    ensures |r| <= |fs|
    decreases |fs|
  {
    if fs == [] then []
    else
      var init := Unfilled(form, fs[..|fs| - 1]);
      var last := fs[|fs| - 1];
      assert fs == fs[..|fs| - 1] + [last];
      if Filled(form, last) then init else init + [last]
  }

  /** Filtering keeps the check order. */
  lemma {:induction false} UnfilledInOrder(form: Form, fs: seq<Field>)
    requires InCheckOrder(fs)
    ensures InCheckOrder(Unfilled(form, fs))
    decreases |fs|
  {
    if fs != [] {
      var init := fs[..|fs| - 1];
      var last := fs[|fs| - 1];
      assert InCheckOrder(init);
      UnfilledInOrder(form, init);
      forall f | f in Unfilled(form, init) ensures Rank(f) < Rank(last) {
        var k :| 0 <= k < |init| && init[k] == f;
      }
    }
  }

  function Labels(fs: seq<Field>): (r: seq<string>)
    ensures |r| == |fs|
    decreases |fs|
  {
    if fs == [] then [] else Labels(fs[..|fs| - 1]) + [Label(fs[|fs| - 1])]
  }

  /**
   * What validate_required_fields returns: its tests, one per field in a fixed
   * order, append the names of the required fields left empty.
   */
  function MissingFields(form: Form, role: string): seq<string> {
    Labels(Unfilled(form, Required(role)))
  }

  /** The list names exactly the required fields left empty, in the fixed check order, each once. */
  lemma MissingFieldsExact(form: Form, role: string)
    ensures var m := Unfilled(form, Required(role));
      && (forall f :: f in m <==> f in Required(role) && !Filled(form, f))
      && InCheckOrder(m)
      && MissingFields(form, role) == Labels(m)
  {
    RequiredInOrder(role);
    UnfilledInOrder(form, Required(role));
  }

  lemma RequiredInOrder(role: string)
    ensures InCheckOrder(Required(role))
  {
    var r := Required(role);
    if role == CLIENT_ROLE {
      assert r == [Login, Password, LastName, FirstName, MiddleName, PassportSeries, PassportNumber, City, Street, House];
      assert forall i :: 0 <= i < |r| ==> Rank(r[i]) == i;
    } else if role == COURIER_ROLE {
      assert r == [Login, Password, LastName, FirstName, MiddleName, Phone];
      assert forall i :: 0 <= i < |r| ==> Rank(r[i]) == if i < 5 then i else 10;
    } else {
      assert r == COMMON;
      assert forall i :: 0 <= i < |r| ==> Rank(r[i]) == i;
    }
  }

  /** Whatever the role, a flat is never required, and only a courier must give a phone. */
  lemma RequiredByRole(role: string)
    ensures forall f :: f in COMMON ==> f in Required(role)
    ensures role == CLIENT_ROLE ==> forall f :: f in Required(role) <==> f in COMMON || f in CLIENT_EXTRA
    ensures role == COURIER_ROLE ==> forall f :: f in Required(role) <==> f in COMMON || f == Phone
    ensures role != CLIENT_ROLE && role != COURIER_ROLE ==> Required(role) == COMMON
    ensures Phone in Required(role) <==> role == COURIER_ROLE
    ensures City in Required(role) <==> role == CLIENT_ROLE
  {
  }

  /** A password of blanks counts as given, a login of blanks does not. */
  lemma PasswordNotStripped(form: Form, role: string)
    requires form.password == "   " && form.login == "   "
    ensures Password !in Unfilled(form, Required(role))
    ensures Login in Unfilled(form, Required(role))
  {
    assert Blank(form.login);
    assert Login in Required(role) && Password in Required(role);
  }

  // ---------- Registration ----------

  /** The Пользователь row on_register inserts: stripped login, hashed raw password, NULL for a blank e-mail, active. */
  function NewUser(form: Form, role: string, hash: Hasher, now: Date): User {
    User(Strip(form.login), hash(form.password), StrippedOrNull(form.email), role, now, true)
  }

  /** The Клиент row, with NULL for a blank flat. */
  function NewClient(form: Form, user: Id): ClientProfile {
    ClientProfile(user, Strip(form.lastName), Strip(form.firstName), Strip(form.middleName),
      Strip(form.passportSeries), Strip(form.passportNumber),
      Strip(form.city), Strip(form.street), Strip(form.house), StrippedOrNull(form.flat))
  }

  /** The Курьер row. */
  function NewCourier(form: Form, user: Id): CourierProfile {
    CourierProfile(user, Strip(form.lastName), Strip(form.firstName), Strip(form.middleName), Strip(form.phone))
  }

  /** The role inserts a profile row: Клиент and Курьер do, any other role does not. */
  predicate HasProfile(role: string) {
    role == CLIENT_ROLE || role == COURIER_ROLE
  }

  datatype RegisterOutcome = Incomplete(missing: seq<string>) | Failed | Registered(user: Id)

  /**
   * The outcome of on_register. The transaction fails when the login is
   * already taken (the column is unique) or when insert number `fault`
   * (0 the user, 1 the profile) raises for any other reason.
   */
  function RegisterResult(users: map<Id, User>, next: Id, form: Form, role: string, fault: Option<nat>)
    : (r: RegisterOutcome)
    ensures r.Incomplete? <==> MissingFields(form, role) != []
    ensures r.Incomplete? ==> r.missing == MissingFields(form, role)
    ensures r.Registered? <==>
      && MissingFields(form, role) == [] && !LoginTaken(users, Strip(form.login))
      && fault != Some(0) && !(HasProfile(role) && fault == Some(1))
    ensures r == Failed <==>
      && MissingFields(form, role) == []
      && (LoginTaken(users, Strip(form.login)) || fault == Some(0) || (HasProfile(role) && fault == Some(1)))
    ensures r.Registered? ==> r.user == next
  {
    if MissingFields(form, role) != [] then Incomplete(MissingFields(form, role))
    else if LoginTaken(users, Strip(form.login)) || fault == Some(0) then Failed
    else if HasProfile(role) && fault == Some(1) then Failed
    else Registered(next)
  }

  /** A registered form was complete: its login is not blank, its password not empty. */
  lemma RegisteredWasComplete(users: map<Id, User>, next: Id, form: Form, role: string, fault: Option<nat>)
    requires RegisterResult(users, next, form, role, fault).Registered?
    ensures Strip(form.login) != [] && form.password != ""
    ensures role == CLIENT_ROLE ==> Strip(form.passportSeries) != [] && Strip(form.house) != []
    ensures role == COURIER_ROLE ==> Strip(form.phone) != []
  {
    CompleteForm(form, role);
  }

  /** A form with nothing missing has a non-blank login, a password and the fields of its role. */
  lemma CompleteForm(form: Form, role: string)
    requires MissingFields(form, role) == []
    ensures Strip(form.login) != [] && form.password != ""
    ensures role == CLIENT_ROLE ==> Strip(form.passportSeries) != [] && Strip(form.house) != []
    ensures role == COURIER_ROLE ==> Strip(form.phone) != []
  {
    RequiredByRole(role);
    NoneMissing(form, role, Login);
    NoneMissing(form, role, Password);
    if role == CLIENT_ROLE {
      NoneMissing(form, role, PassportSeries);
      NoneMissing(form, role, House);
    }
    if role == COURIER_ROLE {
      NoneMissing(form, role, Phone);
    }
  }

  /** With nothing missing, every required field was filled, and a filled entry other than the password stripped is not empty. */
  lemma NoneMissing(form: Form, role: string, f: Field)
    requires MissingFields(form, role) == [] && f in Required(role)
    ensures Filled(form, f)
    ensures f != Password ==> Strip(Entry(form, f)) != []
  {
    var m := Unfilled(form, Required(role));
    assert |Labels(m)| == 0;
    assert f !in m;
  }

  /** on_register: validate, INSERT the user, then the one profile row of its role, and commit; roll back both on an exception. */
  method Register(db: Database, form: Form, role: string, hash: Hasher, now: Date, fault: Option<nat>)
    returns (out: RegisterOutcome)
    requires db.Valid()
    modifies db
    ensures db.Valid()
    ensures out == RegisterResult(old(db.users), old(db.nextId), form, role, fault)
    ensures out.Registered? ==>
      db.users == old(db.users)[old(db.nextId) := NewUser(form, role, hash, now)]
    ensures out.Registered? && role == CLIENT_ROLE ==>
      db.clients == old(db.clients)[old(db.nextId) + 1 := NewClient(form, old(db.nextId))]
    ensures out.Registered? && role == COURIER_ROLE ==>
      db.couriers == old(db.couriers)[old(db.nextId) + 1 := NewCourier(form, old(db.nextId))]
    ensures out.Registered? ==> db.nextId == old(db.nextId) + (if HasProfile(role) then 2 else 1)
    ensures !out.Registered? || role != CLIENT_ROLE ==> db.clients == old(db.clients)
    ensures !out.Registered? || role != COURIER_ROLE ==> db.couriers == old(db.couriers)
    ensures !out.Registered? ==> db.users == old(db.users) && db.nextId == old(db.nextId)
    ensures db.products == old(db.products) && db.orders == old(db.orders) && db.cards == old(db.cards)
  {
    var missing := MissingFields(form, role);
    if missing != [] {
      return Incomplete(missing);
    }
    var uid := db.nextId;
    var ok := InsertAccount(db, NewUser(form, role, hash, now), NewClient(form, uid), NewCourier(form, uid), fault);
    out := if ok then Registered(uid) else Failed;
  }

  /** The two INSERTs of on_register inside one transaction: the user row, then the profile row of its role. */
  method InsertAccount(db: Database, user: User, client: ClientProfile, courier: CourierProfile, fault: Option<nat>)
    returns (committed: bool)
    requires db.Valid()
    modifies db
    ensures db.Valid()
    ensures committed <==>
      !LoginTaken(old(db.users), user.login) && fault != Some(0) && !(HasProfile(user.role) && fault == Some(1))
    ensures committed ==> db.users == old(db.users)[old(db.nextId) := user]
    ensures committed && user.role == CLIENT_ROLE ==> db.clients == old(db.clients)[old(db.nextId) + 1 := client]
    ensures committed && user.role == COURIER_ROLE ==> db.couriers == old(db.couriers)[old(db.nextId) + 1 := courier]
    ensures committed ==> db.nextId == old(db.nextId) + (if HasProfile(user.role) then 2 else 1)
    ensures !committed || user.role != CLIENT_ROLE ==> db.clients == old(db.clients)
    ensures !committed || user.role != COURIER_ROLE ==> db.couriers == old(db.couriers)
    ensures !committed ==> db.users == old(db.users) && db.nextId == old(db.nextId)
    ensures db.products == old(db.products) && db.orders == old(db.orders) && db.cards == old(db.cards)
  {
    if LoginTaken(db.users, user.login) || fault == Some(0) {
      return false;
    }
    if HasProfile(user.role) && fault == Some(1) {
      return false;
    }
    var _ := InsertUser(db, user);
    if user.role == CLIENT_ROLE {
      var _ := AddClientRow(db, client);
    } else if user.role == COURIER_ROLE {
      var _ := AddCourierRow(db, courier);
    }
    committed := true;
  }

  /** One INSERT into Клиент under the next identity value. */
  method AddClientRow(db: Database, c: ClientProfile) returns (id: Id)
    requires db.Valid()
    modifies db
    ensures db.Valid()
    ensures id == old(db.nextId) && db.clients == old(db.clients)[id := c] && db.nextId == id + 1
    ensures db.users == old(db.users) && db.couriers == old(db.couriers)
    ensures db.products == old(db.products) && db.orders == old(db.orders) && db.cards == old(db.cards)
  {
    id := db.nextId;
    db.clients, db.nextId := db.clients[id := c], id + 1;
  }

  /** One INSERT into Курьер under the next identity value. */
  method AddCourierRow(db: Database, k: CourierProfile) returns (id: Id)
    requires db.Valid()
    modifies db
    ensures db.Valid()
    ensures id == old(db.nextId) && db.couriers == old(db.couriers)[id := k] && db.nextId == id + 1
    ensures db.users == old(db.users) && db.clients == old(db.clients)
    ensures db.products == old(db.products) && db.orders == old(db.orders) && db.cards == old(db.cards)
  {
    id := db.nextId;
    db.couriers, db.nextId := db.couriers[id := k], id + 1;
  }

  // ---------- The administrator manager ----------

  datatype AdminOutcome = CredentialsMissing | AdminFailed | AdminAdded(user: Id)

  /** The Пользователь row add_admin inserts: always the administrator role, always active. */
  function NewAdmin(login: string, password: string, email: string, hash: Hasher, now: Date): (u: User)
    ensures u.role == ADMIN_ROLE && u.active && u.login == Strip(login) && u.hash == hash(password)
    ensures u.email == None <==> Blank(email)
  {
    User(Strip(login), hash(password), StrippedOrNull(email), ADMIN_ROLE, now, true)
  }

  /** add_admin: a stripped login and a raw password are both required; the unique login or any other error rolls back. */
  method AddAdmin(db: Database, login: string, password: string, email: string, hash: Hasher, now: Date, fault: bool)
    returns (out: AdminOutcome)
    requires db.Valid()
    modifies db
    ensures db.Valid()
    ensures out == CredentialsMissing <==> Blank(login) || password == ""
    ensures out.AdminAdded? <==> !Blank(login) && password != "" && !LoginTaken(old(db.users), Strip(login)) && !fault
    ensures out.AdminAdded? ==>
      out.user == old(db.nextId)
      && db.users == old(db.users)[old(db.nextId) := NewAdmin(login, password, email, hash, now)]
      && db.nextId == old(db.nextId) + 1
    ensures !out.AdminAdded? ==> db.users == old(db.users) && db.nextId == old(db.nextId)
    ensures db.products == old(db.products) && db.orders == old(db.orders) && db.cards == old(db.cards)
    ensures db.clients == old(db.clients) && db.couriers == old(db.couriers)
  {
    var name := Strip(login);
    if name == [] || password == "" {
      return CredentialsMissing;
    }
    if LoginTaken(db.users, name) || fault {
      return AdminFailed;
    }
    var id := InsertUser(db, NewAdmin(login, password, email, hash, now));
    out := AdminAdded(id);
  }
}
