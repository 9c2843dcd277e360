/**
 * The login window (main.py): the guard chain of on_login, the lookup of a
 * user with its client or courier row, the window opened for each role, and
 * the default administrator created at start-up.
 */
module LoginWindow {
  import opened Wrappers
  import opened Text
  import opened Schema
  import Registration

  /** The smallest identity value of a non-empty set: the row a lookup returns when several match. */
  function First(ids: set<Id>): (r: Option<Id>)
    ensures r.None? <==> ids == {}
    ensures r.Some? ==> r.value in ids && forall x :: x in ids ==> r.value <= x
  {
    if ids == {} then None else Some(Min(ids))
  }

  /** get_user_by_login: the user row with exactly this login. */
  function UserByLogin(users: map<Id, User>, login: string): (r: Option<Id>)
    ensures r.None? <==> !LoginTaken(users, login)
    ensures r.Some? ==> r.value in users && users[r.value].login == login
  {
    var ids := set id | id in users && users[id].login == login;
    assert forall id :: id in users && users[id].login == login ==> id in ids;
    First(ids)
  }

  /** The client row joined to a user (the LEFT JOIN on Клиент). */
  function ClientOf(clients: map<Id, ClientProfile>, user: Id): (r: Option<Id>)
    ensures r.None? <==> forall c :: c in clients ==> clients[c].user != user
    ensures r.Some? ==> r.value in clients && clients[r.value].user == user
  {
    var ids := set c | c in clients && clients[c].user == user;
    assert forall c :: c in clients && clients[c].user == user ==> c in ids;
    First(ids)
  }

  /** The courier row joined to a user (the LEFT JOIN on Курьер). */
  function CourierOf(couriers: map<Id, CourierProfile>, user: Id): (r: Option<Id>)
    ensures r.None? <==> forall k :: k in couriers ==> couriers[k].user != user
    ensures r.Some? ==> r.value in couriers && couriers[r.value].user == user
  {
    var ids := set k | k in couriers && couriers[k].user == user;
    assert forall k :: k in couriers && couriers[k].user == user ==> k in ids;
    First(ids)
  }

  /** The window on_login opens. */
  datatype Window =
    | AdminApp(user: Id)
    | ClientApp(user: Id, client: Option<Id>)
    | CourierApp(user: Id, courier: Option<Id>)
    | UnknownRole

  datatype LoginOutcome = EnterCredentials | UserNotFound | WrongPassword | Opened(window: Window)

  /** The window for a user row that passed the password check. */
  function WindowFor(clients: map<Id, ClientProfile>, couriers: map<Id, CourierProfile>, id: Id, u: User): Window {
    if u.role == ADMIN_ROLE then AdminApp(id)
    else if u.role == CLIENT_ROLE then ClientApp(id, ClientOf(clients, id))
    else if u.role == COURIER_ROLE then CourierApp(id, CourierOf(couriers, id))
    else UnknownRole
  }

  /**
   * on_login: the stripped login and the raw password must both be given,
   * then the login must be known, then the password must hash to the stored
   * hash; only then is a window opened.
   */
  function OnLogin(users: map<Id, User>, clients: map<Id, ClientProfile>, couriers: map<Id, CourierProfile>,
                   loginText: string, password: string, hash: Hasher): (r: LoginOutcome)
    ensures r == EnterCredentials <==> Blank(loginText) || password == ""
    ensures r == UserNotFound <==> !Blank(loginText) && password != "" && !LoginTaken(users, Strip(loginText))
    ensures r == WrongPassword || r.Opened? ==> UserByLogin(users, Strip(loginText)).Some?
    ensures r.Opened? ==> var id := UserByLogin(users, Strip(loginText)).value;
      users[id].hash == hash(password) && r.window == WindowFor(clients, couriers, id, users[id])
    ensures r == WrongPassword ==> users[UserByLogin(users, Strip(loginText)).value].hash != hash(password)
  {
    var login := Strip(loginText);
    if login == [] || password == "" then EnterCredentials
    else Attempt(users, clients, couriers, login, password, hash)
  }

  /** The checks after the guard: the stripped login must be known, then the password must hash to the stored hash. */
  function Attempt(users: map<Id, User>, clients: map<Id, ClientProfile>, couriers: map<Id, CourierProfile>,
                   login: string, password: string, hash: Hasher): LoginOutcome {
    match UserByLogin(users, login)
    case None => UserNotFound
    case Some(id) =>
      if hash(password) != users[id].hash then WrongPassword
      else Opened(WindowFor(clients, couriers, id, users[id]))
  }

  /** A typed login that finds a row whose hash is the password's hash opens that row's window. */
  lemma LoginOpens(users: map<Id, User>, clients: map<Id, ClientProfile>, couriers: map<Id, CourierProfile>,
                   loginText: string, password: string, hash: Hasher, id: Id)
    requires Strip(loginText) != [] && password != ""
    requires UserByLogin(users, Strip(loginText)) == Some(id) && users[id].hash == hash(password)
    ensures OnLogin(users, clients, couriers, loginText, password, hash) == Opened(WindowFor(clients, couriers, id, users[id]))
  {
  }

  /** With unique logins, a window opens exactly when a login and a password are typed and some user has that login and the password's hash. */
  lemma OpensIffCredentialsMatch(users: map<Id, User>, clients: map<Id, ClientProfile>,
                                 couriers: map<Id, CourierProfile>, loginText: string, password: string, hash: Hasher)
    requires UniqueLogins(users)
    ensures OnLogin(users, clients, couriers, loginText, password, hash).Opened? <==>
      && !Blank(loginText) && password != ""
      && exists id :: id in users && users[id].login == Strip(loginText) && users[id].hash == hash(password)
  {
    AttemptOpensIff(users, clients, couriers, Strip(loginText), password, hash);
  }

  lemma AttemptOpensIff(users: map<Id, User>, clients: map<Id, ClientProfile>,
                        couriers: map<Id, CourierProfile>, login: string, password: string, hash: Hasher)
    requires UniqueLogins(users)
    ensures Attempt(users, clients, couriers, login, password, hash).Opened? <==>
      exists id :: id in users && users[id].login == login && users[id].hash == hash(password)
  {
    if exists id :: id in users && users[id].login == login && users[id].hash == hash(password) {
      var id :| id in users && users[id].login == login && users[id].hash == hash(password);
      assert UserByLogin(users, login) == Some(id);
    }
  }

  /** The window always belongs to the role stored in the user row; any other role text gets the placeholder. */
  lemma WindowMatchesRole(clients: map<Id, ClientProfile>, couriers: map<Id, CourierProfile>, id: Id, u: User)
    ensures var w := WindowFor(clients, couriers, id, u);
      && (w.AdminApp? <==> u.role == ADMIN_ROLE)
      && (w.ClientApp? <==> u.role == CLIENT_ROLE)
      && (w.CourierApp? <==> u.role == COURIER_ROLE)
      && (w == UnknownRole <==> u.role != ADMIN_ROLE && u.role != CLIENT_ROLE && u.role != COURIER_ROLE)
      && (w.ClientApp? ==> w.client == ClientOf(clients, id))
      && (w.CourierApp? ==> w.courier == CourierOf(couriers, id))
  {
    assert ADMIN_ROLE[0] != CLIENT_ROLE[0] && ADMIN_ROLE[0] != COURIER_ROLE[0] && CLIENT_ROLE[1] != COURIER_ROLE[1];
  }

  /** The active flag is not consulted: switching it off changes nothing about logging in. */
  lemma ActiveFlagIgnored(users: map<Id, User>, clients: map<Id, ClientProfile>, couriers: map<Id, CourierProfile>,
                          id: Id, active: bool, loginText: string, password: string, hash: Hasher)
    requires id in users
    ensures OnLogin(users[id := users[id].(active := active)], clients, couriers, loginText, password, hash)
         == OnLogin(users, clients, couriers, loginText, password, hash)
  {
    SameOutcome(users, users[id := users[id].(active := active)], clients, couriers, loginText, password, hash);
  }

  /** Two user tables whose rows agree on login, hash and role give every attempt the same outcome. */
  lemma SameOutcome(users: map<Id, User>, edited: map<Id, User>, clients: map<Id, ClientProfile>,
                    couriers: map<Id, CourierProfile>, loginText: string, password: string, hash: Hasher)
    requires edited.Keys == users.Keys
    requires forall i :: i in users ==>
      edited[i].login == users[i].login && edited[i].hash == users[i].hash && edited[i].role == users[i].role
    ensures OnLogin(edited, clients, couriers, loginText, password, hash) == OnLogin(users, clients, couriers, loginText, password, hash)
  {
    SameAttempt(users, edited, clients, couriers, Strip(loginText), password, hash);
  }

  lemma SameAttempt(users: map<Id, User>, edited: map<Id, User>, clients: map<Id, ClientProfile>,
                    couriers: map<Id, CourierProfile>, login: string, password: string, hash: Hasher)
    requires edited.Keys == users.Keys
    requires forall i :: i in users ==>
      edited[i].login == users[i].login && edited[i].hash == users[i].hash && edited[i].role == users[i].role
    ensures Attempt(edited, clients, couriers, login, password, hash) == Attempt(users, clients, couriers, login, password, hash)
  {
    SameLogins(users, edited, login);
    match UserByLogin(users, login)
    case None =>
    case Some(k) =>
      assert WindowFor(clients, couriers, k, edited[k]) == WindowFor(clients, couriers, k, users[k]);
  }

  /** Two user tables with the same rows' logins find the same row for every login. */
  lemma SameLogins(users: map<Id, User>, edited: map<Id, User>, login: string)
    requires edited.Keys == users.Keys && forall i :: i in users ==> edited[i].login == users[i].login
    ensures UserByLogin(edited, login) == UserByLogin(users, login)
  {
    var a := set i | i in edited && edited[i].login == login;
    var b := set i | i in users && users[i].login == login;
    assert forall i :: i in a <==> i in b;
    assert a == b;
  }

  /** Every profile row refers to an existing user. */
  predicate ProfilesLinked(users: map<Id, User>, clients: map<Id, ClientProfile>, couriers: map<Id, CourierProfile>) {
    && (forall c :: c in clients ==> clients[c].user in users)
    && (forall k :: k in couriers ==> couriers[k].user in users)
  }

  /** After inserting a user under a fresh identity value with a login nobody has, the lookup by that login finds it. */
  lemma FindsInsertedUser(users: map<Id, User>, next: Id, u: User)
    requires IdsBelow(users.Keys, next) && !LoginTaken(users, u.login)
    ensures UserByLogin(users[next := u], u.login) == Some(next)
  {
    var users' := users[next := u];
    assert forall id :: id in users' && users'[id].login == u.login ==> id == next;
    assert next in users' && users'[next].login == u.login;
  }

  /** After inserting the profile row of a fresh user, the join finds that row. */
  lemma FindsInsertedClient(users: map<Id, User>, clients: map<Id, ClientProfile>, next: Id, key: Id, p: ClientProfile)
    requires IdsBelow(users.Keys, next) && (forall c :: c in clients ==> clients[c].user in users) && p.user == next
    ensures ClientOf(clients[key := p], next) == Some(key)
  {
    var clients' := clients[key := p];
    assert forall c :: c in clients' && clients'[c].user == next ==> c == key;
    assert key in clients' && clients'[key].user == next;
  }

  /** After inserting the profile row of a fresh courier, the join finds that row. */
  lemma FindsInsertedCourier(users: map<Id, User>, couriers: map<Id, CourierProfile>, next: Id, key: Id, p: CourierProfile)
    requires IdsBelow(users.Keys, next) && (forall k :: k in couriers ==> couriers[k].user in users) && p.user == next
    ensures CourierOf(couriers[key := p], next) == Some(key)
  {
    var couriers' := couriers[key := p];
    assert forall k :: k in couriers' && couriers'[k].user == next ==> k == key;
    assert key in couriers' && couriers'[key].user == next;
  }

  /**
   * A completed registration can log in at once with the login and the
   * password typed into the registration form, and opens the window of the
   * chosen role with the profile row registration just inserted.
   */
  lemma RegisteredUserLogsIn(users: map<Id, User>, clients: map<Id, ClientProfile>, couriers: map<Id, CourierProfile>,
                             next: Id, form: Registration.Form, role: string, hash: Hasher, now: Date)
    requires IdsBelow(users.Keys, next) && ProfilesLinked(users, clients, couriers)
    requires Registration.RegisterResult(users, next, form, role, None).Registered?
    ensures var users' := users[next := Registration.NewUser(form, role, hash, now)];
      var clients' := if role == CLIENT_ROLE then clients[next + 1 := Registration.NewClient(form, next)] else clients;
      var couriers' := if role == COURIER_ROLE then couriers[next + 1 := Registration.NewCourier(form, next)] else couriers;
      OnLogin(users', clients', couriers', form.login, form.password, hash) == Opened(
        if role == ADMIN_ROLE then AdminApp(next)
        else if role == CLIENT_ROLE then ClientApp(next, Some(next + 1))
        else if role == COURIER_ROLE then CourierApp(next, Some(next + 1))
        else UnknownRole)
  {
    var u := Registration.NewUser(form, role, hash, now);
    var users' := users[next := u];
    var clients' := if role == CLIENT_ROLE then clients[next + 1 := Registration.NewClient(form, next)] else clients;
    var couriers' := if role == COURIER_ROLE then couriers[next + 1 := Registration.NewCourier(form, next)] else couriers;
    Registration.RegisteredWasComplete(users, next, form, role, None);
    assert u.login == Strip(form.login) && u.hash == hash(form.password);
    FindsInsertedUser(users, next, u);
    if role == CLIENT_ROLE {
      FindsInsertedClient(users, clients, next, next + 1, Registration.NewClient(form, next));
    }
    if role == COURIER_ROLE {
      FindsInsertedCourier(users, couriers, next, next + 1, Registration.NewCourier(form, next));
    }
    WindowMatchesRole(clients', couriers', next, u);
  }

  /**
   * A Клиент account created from the administrator's user dialog has no
   * Клиент row, so logging in opens the client window with no client id.
   */
  lemma AdminMadeClientHasNoProfile(users: map<Id, User>, clients: map<Id, ClientProfile>,
                                    couriers: map<Id, CourierProfile>, next: Id, loginText: string, password: string,
                                    email: Option<string>, hash: Hasher, now: Date, active: bool)
    requires IdsBelow(users.Keys, next) && ProfilesLinked(users, clients, couriers)
    requires !Blank(loginText) && password != "" && !LoginTaken(users, Strip(loginText))
    ensures var u := User(Strip(loginText), hash(password), email, CLIENT_ROLE, now, active);
      OnLogin(users[next := u], clients, couriers, loginText, password, hash) == Opened(ClientApp(next, None))
  {
    var u := User(Strip(loginText), hash(password), email, CLIENT_ROLE, now, active);
    FindsInsertedUser(users, next, u);
    assert forall c :: c in clients ==> clients[c].user != next;
    LoginOpens(users[next := u], clients, couriers, loginText, password, hash, next);
    WindowMatchesRole(clients, couriers, next, u);
  }

  /** An administrator added in the administrator manager logs in with the login and password typed there. */
  lemma AddedAdminLogsIn(users: map<Id, User>, clients: map<Id, ClientProfile>, couriers: map<Id, CourierProfile>,
                         next: Id, loginText: string, password: string, email: string, hash: Hasher, now: Date)
    requires IdsBelow(users.Keys, next)
    requires !Blank(loginText) && password != "" && !LoginTaken(users, Strip(loginText))
    ensures OnLogin(users[next := Registration.NewAdmin(loginText, password, email, hash, now)], clients, couriers,
                    loginText, password, hash) == Opened(AdminApp(next))
  {
    var u := Registration.NewAdmin(loginText, password, email, hash, now);
    FindsInsertedUser(users, next, u);
    LoginOpens(users[next := u], clients, couriers, loginText, password, hash, next);
  }

  /** Some user row carries the administrator role. */
  predicate HasAdmin(users: map<Id, User>) {
    exists id :: id in users && users[id].role == ADMIN_ROLE
  }

  const DEFAULT_LOGIN := "admin"
  const DEFAULT_PASSWORD := "admin123"
  const DEFAULT_EMAIL := "admin@example.com"

  /** The row create_default_admin inserts: active, stamped with the current time. */
  function DefaultAdmin(hash: Hasher, now: Date): User {
    User(DEFAULT_LOGIN, hash(DEFAULT_PASSWORD), Some(DEFAULT_EMAIL), ADMIN_ROLE, now, true)
  }

  /**
   * The user table and counter after create_default_admin: the row is
   * inserted only when no administrator exists; the INSERT fails when a
   * non-administrator already holds the login "admin" (the column is
   * unique) or when the database raises (`fault`), and the failure is
   * swallowed.
   */
  function WithDefaultAdmin(users: map<Id, User>, next: Id, hash: Hasher, now: Date, fault: bool): (map<Id, User>, Id) {
    if HasAdmin(users) || LoginTaken(users, DEFAULT_LOGIN) || fault then (users, next)
    else (users[next := DefaultAdmin(hash, now)], next + 1)
  }

  /** Start-up never leaves a database without an administrator unless the insert failed. */
  lemma DefaultAdminPresent(users: map<Id, User>, next: Id, hash: Hasher, now: Date, fault: bool)
    ensures var (users', next') := WithDefaultAdmin(users, next, hash, now, fault);
      HasAdmin(users') <==> HasAdmin(users) || (!LoginTaken(users, DEFAULT_LOGIN) && !fault)
    ensures var (users', next') := WithDefaultAdmin(users, next, hash, now, fault);
      HasAdmin(users) ==> users' == users && next' == next
  {
    var (users', next') := WithDefaultAdmin(users, next, hash, now, fault);
    if !HasAdmin(users) && !LoginTaken(users, DEFAULT_LOGIN) && !fault {
      assert users'[next].role == ADMIN_ROLE;
    }
  }

  /** Running create_default_admin a second time, once the first run did not fail, changes nothing. */
  lemma DefaultAdminIdempotent(users: map<Id, User>, next: Id, hash: Hasher, now: Date, now2: Date, fault2: bool)
    ensures var (users', next') := WithDefaultAdmin(users, next, hash, now, false);
      WithDefaultAdmin(users', next', hash, now2, fault2) == (users', next')
  {
    var (users', next') := WithDefaultAdmin(users, next, hash, now, false);
    DefaultAdminPresent(users, next, hash, now, false);
    if !HasAdmin(users) {
      assert LoginTaken(users', DEFAULT_LOGIN) by {
        if !LoginTaken(users, DEFAULT_LOGIN) {
          assert users'[next].login == DEFAULT_LOGIN;
        }
      }
    }
  }

  /** The inserted default administrator can log in as admin/admin123 and gets the administrator window. */
  lemma DefaultAdminLogsIn(users: map<Id, User>, clients: map<Id, ClientProfile>, couriers: map<Id, CourierProfile>,
                           next: Id, hash: Hasher, now: Date)
    requires IdsBelow(users.Keys, next) && !HasAdmin(users) && !LoginTaken(users, DEFAULT_LOGIN)
    ensures OnLogin(WithDefaultAdmin(users, next, hash, now, false).0, clients, couriers, DEFAULT_LOGIN, DEFAULT_PASSWORD, hash)
         == Opened(AdminApp(next))
  {
    DefaultAdminInserted(users, next, hash, now);
    DefaultAdminOpens(users, clients, couriers, next, DefaultAdmin(hash, now), hash);
  }

  lemma DefaultAdminInserted(users: map<Id, User>, next: Id, hash: Hasher, now: Date)
    requires !HasAdmin(users) && !LoginTaken(users, DEFAULT_LOGIN)
    ensures WithDefaultAdmin(users, next, hash, now, false).0 == users[next := DefaultAdmin(hash, now)]
  {
  }

  lemma DefaultAdminOpens(users: map<Id, User>, clients: map<Id, ClientProfile>, couriers: map<Id, CourierProfile>,
                          next: Id, u: User, hash: Hasher)
    requires IdsBelow(users.Keys, next) && !LoginTaken(users, DEFAULT_LOGIN)
    requires u.login == DEFAULT_LOGIN && u.hash == hash(DEFAULT_PASSWORD) && u.role == ADMIN_ROLE
    ensures OnLogin(users[next := u], clients, couriers, DEFAULT_LOGIN, DEFAULT_PASSWORD, hash) == Opened(AdminApp(next))
  {
    DefaultLoginUnpadded();
    InsertedAdminLogsIn(users, clients, couriers, next, u, DEFAULT_PASSWORD, hash);
  }

  /** An inserted administrator row logs in to the administrator window. */
  lemma InsertedAdminLogsIn(users: map<Id, User>, clients: map<Id, ClientProfile>, couriers: map<Id, CourierProfile>,
                            next: Id, u: User, password: string, hash: Hasher)
    requires IdsBelow(users.Keys, next) && !LoginTaken(users, u.login) && u.role == ADMIN_ROLE
    requires u.login != [] && Strip(u.login) == u.login && password != "" && u.hash == hash(password)
    ensures OnLogin(users[next := u], clients, couriers, u.login, password, hash) == Opened(AdminApp(next))
  {
    InsertedUserLogsIn(users, clients, couriers, next, u, password, hash);
  }

  /** A user inserted under a fresh identity value with an unpadded login nobody has logs in with that login and its password. */
  lemma InsertedUserLogsIn(users: map<Id, User>, clients: map<Id, ClientProfile>, couriers: map<Id, CourierProfile>,
                           next: Id, u: User, password: string, hash: Hasher)
    requires IdsBelow(users.Keys, next) && !LoginTaken(users, u.login)
    requires u.login != [] && Strip(u.login) == u.login && password != "" && u.hash == hash(password)
    ensures OnLogin(users[next := u], clients, couriers, u.login, password, hash) == Opened(WindowFor(clients, couriers, next, u))
  {
    FindsInsertedUser(users, next, u);
    LoginOpens(users[next := u], clients, couriers, u.login, password, hash, next);
  }

  lemma DefaultLoginUnpadded()
    ensures Strip(DEFAULT_LOGIN) == DEFAULT_LOGIN
  {
    assert !IsSpace(DEFAULT_LOGIN[0]) && !IsSpace(DEFAULT_LOGIN[4]);
    StripKeeps(DEFAULT_LOGIN);
  }

  /** create_default_admin on the database; the only write is the optional user row. */
  method CreateDefaultAdmin(db: Database, hash: Hasher, now: Date, fault: bool)
    requires db.Valid()
    modifies db
    ensures db.Valid()
    ensures (db.users, db.nextId) == WithDefaultAdmin(old(db.users), old(db.nextId), hash, now, fault)
    ensures db.products == old(db.products) && db.orders == old(db.orders) && db.cards == old(db.cards)
    ensures db.clients == old(db.clients) && db.couriers == old(db.couriers)
  {
    if HasAdmin(db.users) || LoginTaken(db.users, DEFAULT_LOGIN) || fault {
      return;
    }
    var _ := InsertUser(db, DefaultAdmin(hash, now));
  }
}
