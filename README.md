# Shop screens in Dafny

A model of the data-changing handlers of a small desktop shop. The shop keeps
products, orders, payment cards and users (with client and courier profiles)
in a SQL Server database. Three role windows and a login window work on it:

- the **client** fills an in-memory cart, checks out in one transaction and
  manages their own payment cards;
- the **courier** claims free orders and moves their own orders through the
  delivery statuses;
- the **administrator** browses the six tables, adds, edits and deletes
  users, products and orders, and sets order statuses without any guard;
- the **login window** checks the credentials and opens the window of the
  user's role; at start-up a default administrator is created when there is
  none; a registration window adds clients and couriers, an administrator
  manager adds administrators.

The database is a class `Schema.Database` with one map per table, from the
row's identity value to the row, and one counter, shared by all tables, that
hands out fresh identity values. `Database.Valid()` is the state every handler keeps:
- identity values are fresh;
- logins are unique;
- no stock is negative;
- every stored status reads back as written.

Each handler is a method over that state. Its `ensures` ties the outcome and
the new tables to a pure function of the old ones. The properties the screens
promise are lemmas about those functions:
- claims are exclusive; a delivered order is frozen for couriers;
- checkout takes exactly each line's quantity and never drives stock negative;
- card handlers never touch another client's card;
- the refresh dispatch picks each table's own loader;
- a formatted time stamp reads back;
- a fresh registration can log in at once;
- the active flag is never consulted at login.

Modules, one per source file plus shared ones:

| file | module | models |
|---|---|---|
| wrappers.dfy | Wrappers | `Option` |
| text.dfy | Text | Python's `str.strip`, `str.lower`, `in`, `str(int)` and `int(str)` |
| status.dfy | OrderStatus | the five order statuses and the free-text fallback |
| schema.dfy | Schema | the rows, the roles, the database state |
| courier.dfy | CourierScreen | ui_courier.py |
| client.dfy | ClientScreen | ui_client.py |
| registration.dfy | Registration | the registration and administrator-manager windows of ui_login.py |
| admin.dfy | AdminScreen | ui_admin.py |
| login.dfy | LoginWindow | main.py and the lookup of db.py |

Errors of the writing statements, and of the reads inside the courier
handlers' transactions, are modelled by a `fault` parameter: a `bool`, or
the index of the statement that raises. The other reads have no fault
input; "## Left out" says what the source does when they raise. The password hash is a function parameter
(`Hasher`). The current time, the float parse of a price and the
`strptime` check of a card's expiry date are parameters too.

## Model

| member | source | states |
|---|---|---|
| OrderStatus.Parse | ui_admin.py:1214-1216 | reading a status text gives a well-formed status whose text is exactly the one read |
| OrderStatus.ParseName | ui_admin.py:1214-1216 | writing a well-formed status and reading it back gives the same status |
| OrderStatus.NameInjective | ui_courier.py:713 | two well-formed statuses are equal exactly when their texts are, so the source's text comparisons are status comparisons |
| OrderStatus.ClaimableByName | ui_courier.py:437 | the claim guard on the status text accepts exactly the created and processing statuses |
| Text.Strip | ui_login.py:355-384 | `strip()` gives the empty string exactly for an all-whitespace entry; a non-empty result has no whitespace at either end |
| Text.StripInfix | ui_login.py:355-384 | what `strip()` keeps is a contiguous piece of the input with only whitespace before and after it |
| Text.StripIdempotent | ui_login.py:389 | stripping twice is stripping once, so a stored stripped login is found by its stripped text |
| Text.StrippedOrNull | ui_login.py:391 | `s.strip() or None` is NULL exactly for a blank entry, else the non-empty stripped text |
| Text.Lower | ui_admin.py:528 | `lower()` keeps the length and lower-cases each character |
| Text.LowerIdempotent | ui_admin.py:528 | lower-casing an already lower-cased text changes nothing, because no capital is left and every other character is kept |
| Text.Contains | ui_admin.py:528 | `needle in hay` holds exactly when the needle occurs at some index |
| Text.ParseInt | ui_client.py:541 | `int()` raises on an entry that is empty or all whitespace |
| Text.ParseUnsigned | ui_client.py:541 | digits with single underscores between them, as `int()` accepts them, read back as their value |
| Text.ParseNegative | ui_client.py:541 | the same digits after a minus sign read back as the negated value |
| Text.ParseIntToString | ui_admin.py:393 | `int(str(n)) == n` for every integer |
| Text.DecimalValue | ui_admin.py:393 | the digits `str()` writes for n >= 0 denote n |
| Schema.AddUserKeepsUnique | ui_login.py:412-420 | inserting a user whose login nobody has keeps logins unique |
| Schema.ReplaceKeepsUnique | ui_admin.py:777-778 | rewriting a user row without touching its login keeps logins unique |
| Schema.Ascending | ui_client.py:625-630 | `ORDER BY` id: strictly increasing, exactly the given ids, each once |
| CourierScreen.Take | ui_courier.py:407-471 | a claim succeeds exactly for a chosen, existing, unassigned order in a claimable status when no statement raises, and sets only its status and its courier, to the session's id as it is (NULL without a Курьер row); it fails exactly when the read raises, or the write raises after the guards pass; every other outcome leaves the orders unchanged |
| CourierScreen.TakeIsExclusive | ui_courier.py:431-435 | once an order is claimed, a second claim by any courier changes nothing and, unless its read raises, is refused as already taken |
| CourierScreen.ChangeStatus | ui_courier.py:679-741 | a change succeeds exactly for a chosen own order with a non-empty text that does not move a delivered order off delivered when no statement raises, and then sets only the status; it fails exactly when the read raises, or the write raises after the guards pass |
| CourierScreen.DeliveredIsFinal | ui_courier.py:713-715 | a delivered order stays delivered whatever any courier picks |
| CourierScreen.ChangeStatusKeepsAssignment | ui_courier.py:717-724 | no status change adds or removes an order or changes its courier, product, quantity or card |
| CourierScreen.SortByDate | ui_courier.py:371 | the result is a permutation of the input sorted by order date |
| CourierScreen.SortedSet | ui_courier.py:637-638 | sorting the ids of a set lists each of them exactly once, in date order |
| CourierScreen.Available | ui_courier.py:349-372 | the available list holds exactly the unassigned, claimable, joinable orders, oldest first |
| CourierScreen.Mine | ui_courier.py:617-639 | the courier's list holds exactly the courier's joinable orders, newest first, and is empty for a session without a Курьер row |
| CourierScreen.AvailableMatchesGuard | ui_courier.py:369-371 | every listed order passes the claim guard, and every order the guard accepts is listed unless a join drops it |
| CourierScreen.TakeMovesBetweenLists | ui_courier.py:444-457 | a successful claim moves the order from the available list to the claimer's list |
| CourierScreen.ClaimWithoutProfileOrphans | ui_courier.py:444-452 | a claim from an account without a Курьер row writes a NULL courier with status у курьера, so the order leaves the available list, is in no courier's list, and no courier can change it again |
| CourierScreen.CourierSession.constructor | ui_courier.py:40-59 | a new courier window holds the Курьер id joined at login, None for an account without a Курьер row, and has no order selected |
| CourierScreen.CourierSession.Select | ui_courier.py:393-405 | selecting a row sets the selected order; an empty selection (a list refresh clears the rows) keeps the previous order |
| CourierScreen.CourierSession.TakeOrder | ui_courier.py:407-471 | the method's outcome and order table are those of `Take`; nothing else in the database changes; only a claim clears the selection, so a rolled-back error keeps it |
| CourierScreen.CourierSession.ChangeOrderStatus | ui_courier.py:679-741 | the method's outcome and order table are those of `ChangeStatus`; nothing else in the database changes; only a change clears the selection, so a rolled-back error keeps it |
| ClientScreen.IndexOf | ui_client.py:570-572 | the position of the first cart line for the product, or -1 exactly when there is none |
| ClientScreen.Merge | ui_client.py:570-575 | an existing line gets the summed quantity at its own place; a new product is appended |
| ClientScreen.MergeKeepsGood | ui_client.py:570-575 | merging a quantity of at least 1 keeps the products unique and every quantity at least 1, and grows the cart only for a new product |
| ClientScreen.AddVerdict | ui_client.py:535-585 | a line is added exactly when a product is chosen, the quantity parses to at least 1, the product exists and its stock covers that quantity alone |
| ClientScreen.CartMayExceedStock | ui_client.py:560-575 | two accepted additions of 2 against a stock of 3 make a cart line of 4, which checkout then refuses |
| ClientScreen.FirstProblem | ui_client.py:706-728 | there is no problem exactly when every line's product exists and has enough stock |
| ClientScreen.FirstProblemAt | ui_client.py:706-728 | the first failing line, in cart order, is the problem reported |
| ClientScreen.DecrementedStock | ui_client.py:764-769 | after the stock updates each product has lost the total its lines ask for; the set of products is the same |
| ClientScreen.QtyOfUnique | ui_client.py:570-575 | with unique products the total asked of a product is the quantity of its one line |
| ClientScreen.CheckoutStock | ui_client.py:750-769 | a validated checkout takes exactly each line's quantity from its product, leaves other products alone and drives no stock below 0 |
| ClientScreen.NewOrdersExact | ui_client.py:750-756 | line k becomes order next + k with status created, the chosen card, its product and quantity and no courier |
| ClientScreen.Range | ui_client.py:758-762 | the identity values of the new orders are next, next + 1, and so on |
| ClientScreen.CheckoutResult | ui_client.py:700-805 | checkout is refused exactly when a line fails validation and placed exactly when no line fails and no insert raises |
| ClientScreen.PaymentChoices | ui_client.py:625-630 | the choices are exactly the client's cards, in ascending id order |
| ClientScreen.StartCheckout | ui_client.py:616-640 | an empty cart or a client without cards gets no choice; otherwise the choices are the client's cards |
| ClientScreen.NoProfileNoCheckout | ui_client.py:622-640 | a session without a Клиент row finds no card, so checkout of a non-empty cart stops at the missing-card message |
| ClientScreen.RemoveSpaces | ui_client.py:810 | the result has no space |
| ClientScreen.RemoveSpacesAppend | ui_client.py:810 | removing spaces distributes over concatenation |
| ClientScreen.MaskCard | ui_client.py:809-813 | fewer than four characters give that many stars; otherwise the fixed prefix and the last four characters |
| ClientScreen.MaskDependsOnLastFour | ui_client.py:809-813 | two numbers with the same last four characters mask alike |
| ClientScreen.MaskIdempotent | ui_client.py:809-813 | masking a masked number gives it back |
| ClientScreen.AddCardVerdict | ui_client.py:1568-1604 | a card is saved exactly when all three stripped fields are filled, the expiry is a date and the insert does not raise |
| ClientScreen.EditCard | ui_client.py:1606-1637 | the edit reports success exactly for a selection with filled fields and no error; a successful edit of the client's own selected card stores the stripped number, expiry and CVV, and no other row can change |
| ClientScreen.DeleteCard | ui_client.py:1639-1667 | a card is removed exactly when it is selected, confirmed, this client's and not paid with; nothing else is removed |
| ClientScreen.CardsScopedToClient | ui_client.py:1622-1653 | neither edit nor delete changes or removes another client's card |
| ClientScreen.NoProfileChangesNoCard | ui_client.py:1622-1653 | a session without a Клиент row changes no card by editing or deleting |
| ClientScreen.ClientSession.constructor | ui_client.py:14-34 | a new client window holds the Клиент id joined at login, None for an account without a Клиент row, and has an empty cart and no selection |
| ClientScreen.ClientSession.SelectProduct | ui_client.py:471-512 | a row whose id parses and whose product is in the table becomes the selected product; no row, an unparsable id or a missing product keeps the previous selection; the cart and the selected card stay |
| ClientScreen.ClientSession.SelectCard | ui_client.py:1549-1566 | a row whose id parses becomes the selected card, whether or not the card is known; an empty or unparsable selection keeps the previous card; the cart and the selected product stay |
| ClientScreen.ClientSession.AddSelectedToCart | ui_client.py:535-585 | the outcome is `AddVerdict`'s and the cart becomes the merge exactly when a line is added |
| ClientScreen.ClientSession.MergeLine | ui_client.py:570-575 | the search loop and the update or append leave the cart equal to `Merge` and keep it well-formed |
| ClientScreen.ClientSession.FindProblem | ui_client.py:706-728 | the validation loop finds the problem `FirstProblem` names |
| ClientScreen.ClientSession.CreateOrder | ui_client.py:700-805 | the outcome is `CheckoutResult`'s; a placed checkout adds the new orders, decrements stock, clears the cart and resets the selected product (the product list reload); any other outcome changes neither tables, cart nor selection |
| ClientScreen.ClientSession.InsertLines | ui_client.py:748-778 | the insert loop commits all lines, or on an error leaves the orders, stock and counter as they were |
| ClientScreen.InsertLoop | ui_client.py:750-769 | the loop inserts one order per line under consecutive identity values and takes each line's quantity from stock; it runs to the end exactly when the card exists and no insert raises |
| ClientScreen.InsertCard | ui_client.py:1586-1590 | one card insert under the next identity value keeps the database valid |
| ClientScreen.UpdateCard | ui_client.py:1622-1629 | one card update of an existing row keeps the database valid and the card identity values |
| ClientScreen.ClientSession.AddPayment | ui_client.py:1568-1604 | the outcome is `AddCardVerdict`'s with a failing insert for a session without a Клиент row; a saved card is a new row of this client with the stripped fields |
| ClientScreen.ClientSession.EditPayment | ui_client.py:1606-1637 | the outcome and card table are those of `EditCard` |
| ClientScreen.ClientSession.DeletePayment | ui_client.py:1639-1667 | the outcome and card table are those of `DeleteCard`; the selection is cleared on success |
| ClientScreen.CheckoutStep | ui_client.py:750-769 | one more loop pass extends the new orders and the stock updates by exactly one line |
| ClientScreen.CheckoutValid | ui_client.py:750-771 | a committed checkout keeps identity values fresh, stock non-negative and statuses well-formed |
| Registration.Unfilled | ui_login.py:350-386 | the unfilled fields are exactly the listed fields left empty |
| Registration.UnfilledInOrder | ui_login.py:350-386 | filtering keeps the check order |
| Registration.MissingFieldsExact | ui_login.py:350-386 | the missing list names exactly the required fields left empty, in check order, each once |
| Registration.RequiredInOrder | ui_login.py:350-386 | every role's required fields are listed in check order |
| Registration.RequiredByRole | ui_login.py:354-384 | five fields for everyone; passport and address only for Клиент; phone only for Курьер; flat never |
| Registration.PasswordNotStripped | ui_login.py:355-358 | a password of blanks counts as given, a login of blanks does not |
| Registration.RegisterResult | ui_login.py:388-468 | an incomplete form reports the missing list before any write; a registration succeeds exactly for a complete form with a free login and no failing insert |
| Registration.RegisteredWasComplete | ui_login.py:393-400 | a registered form had a non-blank login and a password, and the fields of its role |
| Registration.CompleteForm | ui_login.py:350-386 | a form with nothing missing has a non-blank login, a password and the fields of its role |
| Registration.Register | ui_login.py:388-468 | the outcome is `RegisterResult`'s; a registration inserts the user and the one profile row of its role; any other outcome changes nothing |
| Registration.InsertAccount | ui_login.py:406-468 | the two inserts commit exactly when the login is free and neither raises; otherwise both are rolled back |
| Schema.InsertUser | ui_login.py:412-421 | one user insert under the next identity value, allowed only for a free login, keeps the database valid |
| Registration.AddClientRow | ui_login.py:428-447 | one Клиент insert under the next identity value |
| Registration.AddCourierRow | ui_login.py:450-459 | one Курьер insert under the next identity value |
| Registration.NewAdmin | ui_login.py:686-699 | the inserted row always has the administrator role and the active flag, the stripped login and the password's hash |
| Registration.AddAdmin | ui_login.py:680-715 | an administrator is added exactly when login and password are given, the login is free and the insert does not raise |
| AdminScreen.AddDispatch | ui_admin.py:532-552 | a dialog opens exactly for the user and product tables, each its own; no table shown is reported first |
| AdminScreen.Editor | ui_admin.py:567-572 | a table has an editor exactly when it is users, products or orders |
| AdminScreen.EditDispatch | ui_admin.py:554-583 | a row must be selected, then a table shown, then the table editable; the dialog opened is the table's own |
| AdminScreen.ReadOnlyTables | ui_admin.py:538-604 | the client, courier and payment tables can be neither added to, edited nor deleted from |
| AdminScreen.OrdersNotAddable | ui_admin.py:538-604 | orders can be edited and deleted but not added |
| AdminScreen.FirstFrom | ui_admin.py:527-530 | the first loader from an index on whose name matches, or none when none does |
| AdminScreen.LoaderFor | ui_admin.py:516-530 | no loader without a current table; otherwise the first loader, in written order, whose lower-cased name occurs in the lower-cased current name |
| AdminScreen.MatchesItself | ui_admin.py:528 | every table name matches itself |
| AdminScreen.ExactNameLoadsItsTable | ui_admin.py:516-530 | each of the six table names refreshes with its own loader |
| AdminScreen.Digits | ui_admin.py:390-391 | the padded digits have the given width and are all digits |
| AdminScreen.DigitsValueOf | ui_admin.py:390-391 | padded digits read back as the number when it fits the width |
| AdminScreen.ReadWrittenTriple | ui_admin.py:390-391 | three numbers written with a separator read back as the same three |
| AdminScreen.FormatStamp | ui_admin.py:390-391 | a formatted time stamp has 19 characters |
| AdminScreen.ReadFormattedStamp | ui_admin.py:390-391 | a time stamp whose fields fit the format reads back from its text, so distinct stamps display differently |
| AdminScreen.FormatCell | ui_admin.py:380-393 | the text is empty exactly for NULL or an empty text; a time stamp reads back; an integer's text parses back to it |
| AdminScreen.CheckProduct | ui_admin.py:985-1008 | the name is checked before the price and the price before the quantity; a product is accepted exactly for a non-blank name, a price above 0 and an integer quantity of at least 0 |
| AdminScreen.AddProduct | ui_admin.py:985-1032 | a rejected form changes nothing; an accepted one inserts the checked product with the chosen image unless the insert raises |
| AdminScreen.InsertProduct | ui_admin.py:1010-1032 | the insert adds one product under the next identity value, or rolls back |
| AdminScreen.EditedProduct | ui_admin.py:1144-1166 | name, price and quantity are replaced; the image only when new bytes are given |
| AdminScreen.ImageKeptWithoutBytes | ui_admin.py:1156-1166 | an example of `EditedProduct`: without new image bytes the stored image survives any number of edits |
| AdminScreen.EditProduct | ui_admin.py:1110-1179 | nothing happens without a product id; a rejected form changes nothing; an accepted one updates that row, if it still exists, unless the update raises |
| AdminScreen.UpdateProduct | ui_admin.py:1139-1179 | the update rewrites only that product row, or rolls back |
| AdminScreen.EditedUser | ui_admin.py:792-826 | e-mail, role and active flag are always written; the hash changes only for a non-empty entry that is not the placeholder |
| AdminScreen.PlaceholderKeepsPassword | ui_admin.py:779-806 | leaving the placeholder or clearing the entry keeps the stored hash |
| AdminScreen.EditKeepsUniqueLogins | ui_admin.py:777-778 | the login is never edited, so logins stay unique |
| AdminScreen.AddUser | ui_admin.py:737-770 | a user is added exactly when login and password are given, the login is free and the insert does not raise; the role and the active flag are as chosen |
| AdminScreen.EditUser | ui_admin.py:792-833 | with no check at all, the dialog's user row becomes `EditedUser` unless the update raises |
| AdminScreen.SetStatus | ui_admin.py:1254-1263 | the selected order gets the chosen status from any status; no other order changes |
| AdminScreen.AdminReopensDelivered | ui_admin.py:1254-1263 | the administrator can move a delivered order off delivered, which the courier screen refuses |
| AdminScreen.EditOrderStatus | ui_admin.py:1254-1273 | the order table becomes `SetStatus` unless the update raises |
| AdminScreen.DeleteKeepsLinked | ui_admin.py:617-634 | deleting a row nothing refers to leaves every reference between rows resolvable |
| AdminScreen.DeleteVerdict | ui_admin.py:585-643 | a row is deleted exactly when a row is selected, the table is deletable, the deletion is confirmed and the database does not refuse |
| AdminScreen.AdminPanel.constructor | ui_admin.py:33-36 | a new panel shows no table and no rows |
| AdminScreen.AdminPanel.LoadTable | ui_admin.py:340-396 | the table becomes current and the shown rows are the query rows formatted value by value |
| AdminScreen.AdminPanel.RefreshTable | ui_admin.py:516-530 | the loop with `break` picks the loader `LoaderFor` names |
| AdminScreen.AdminPanel.DeleteRecord | ui_admin.py:585-643 | the outcome is `DeleteVerdict`'s; a deletion removes only that row of the current table, and keeps every reference between rows resolvable when they all resolved before |
| AdminScreen.RemoveRow | ui_admin.py:627-630 | the DELETE removes one row of one of the three deletable tables |
| LoginWindow.UserByLogin | db.py:18-45 | the lookup finds a row with exactly that login, and none exactly when no user has it |
| LoginWindow.ClientOf | db.py:32-33 | the joined Клиент row belongs to the user, and there is none exactly when no client row refers to the user |
| LoginWindow.CourierOf | db.py:34-35 | the joined Курьер row belongs to the user, and there is none exactly when no courier row refers to the user |
| LoginWindow.OnLogin | main.py:134-166 | an empty login or password is refused first, then an unknown login, then a wrong password; a window opens only after the hash matches |
| LoginWindow.OpensIffCredentialsMatch | main.py:134-166 | a window opens exactly when a login and a password are typed and some user has that login and the password's hash |
| LoginWindow.WindowMatchesRole | main.py:157-166 | the administrator, client and courier windows open exactly for their roles, with the joined profile id; any other role gets the placeholder |
| LoginWindow.ActiveFlagIgnored | main.py:134-166 | switching a user's active flag changes nothing about logging in |
| LoginWindow.SameOutcome | main.py:142-166 | two user tables that agree on every row's login, hash and role give every login attempt the same outcome |
| LoginWindow.FindsInsertedUser | db.py:18-45 | a freshly inserted user with a free login is found by that login |
| LoginWindow.InsertedUserLogsIn | main.py:134-166 | a user inserted under a fresh identity value with an unpadded free login logs in with that login and its password and gets its role's window |
| LoginWindow.RegisteredUserLogsIn | ui_login.py:388-468 | after a registration the typed login and password open the role's window with the new profile row |
| LoginWindow.AdminMadeClientHasNoProfile | ui_admin.py:737-770 | a Клиент account made in the administrator's user dialog opens the client window with no client id |
| LoginWindow.AddedAdminLogsIn | ui_login.py:680-715 | an administrator added in the manager logs in with the typed login and password |
| LoginWindow.DefaultAdminPresent | main.py:183-208 | afterwards an administrator exists exactly when one existed or the login admin was free and the insert did not raise; an existing administrator means nothing changes |
| LoginWindow.DefaultAdminIdempotent | main.py:183-208 | a second start-up after one that did not fail changes nothing |
| LoginWindow.DefaultAdminLogsIn | main.py:194-204 | the inserted default administrator logs in as admin/admin123 and gets the administrator window |
| LoginWindow.CreateDefaultAdmin | main.py:183-208 | the user table and counter become `WithDefaultAdmin`'s; nothing else changes |

## Left out

- Widgets, styling, messageboxes, window centring and the order-details texts are not modelled. The handlers' outcomes stand in for the messages.
- Product images are not modelled. Loading and thumbnailing an image is file I/O through an imaging library; the model keeps only the optional image bytes as data.
- Money is not modelled. Prices are `real`, and totals and price formatting are left out (floating point). The float parse of a price, with commas read as points, is a parameter `Option<real>`.
- Dates are opaque integers. `datetime.now`, `GETDATE()` and `SYSDATETIME()` are a `now`/`today` parameter. The `strptime` check of a card's expiry is a boolean parameter.
- Database errors are a `fault` parameter only for the writes and for the reads of the courier handlers' transactions. The connection, the driver and the SQL text are not modelled, and neither is `SCOPE_IDENTITY`. A new identity value is the counter's value. A SQL Server identity value consumed by a rolled-back insert is not modelled.
- One identity counter serves every table, where SQL Server keeps a separate IDENTITY per table. So a new Клиент or Курьер row gets the user's value plus one, which `Registration.Register` and `LoginWindow.RegisteredUserLogsIn` state, and the database would generally give it another value. Only the link from the profile row to its user matters to the screens, and that link is modelled exactly.
- The reads below have no fault input, so they are modelled as if they never raise. Where the source has no handler for the exception, it escapes and nothing changes. Otherwise the handler reports the error and changes no data.
  - `LoginWindow.OnLogin`: the lookup runs with no handler (main.py:142, db.py:24-45). A raising lookup leaves the window on the login screen.
  - `ClientScreen.AddVerdict`: the stock SELECT's exceptions other than `ValueError` escape, and the cart stays as it was (ui_client.py:547-554).
  - `ClientScreen.StartCheckout` and `ClientScreen.PaymentChoices`: the card SELECT runs with no handler, and no payment window opens (ui_client.py:622-631).
  - `ClientScreen.CheckoutResult` and `ClientScreen.ClientSession.CreateOrder`: a validation or name SELECT that raises rolls back with nothing written and reports a failure (ui_client.py:706-745). The model cannot give that failure ahead of a line that fails validation, where it answers `Refused`.
  - `AdminScreen.AdminPanel.LoadTable`: when the query raises, the source has already made the table current and cleared the tree, keeps the old `table_data` and shows an error (ui_admin.py:358-400).
  - `CourierScreen.Available` and `CourierScreen.Mine`: a raising query leaves the list empty and shows an error (ui_courier.py:355-390, 623-657). The loaders open their connection before the `try` (ui_courier.py:353, 621), so a connection that cannot be opened raises out of the loader.
- `CourierScreen.CourierSession.TakeOrder` and `CourierScreen.CourierSession.ChangeOrderStatus`: after the commit both handlers refresh their lists inside their own `try` (ui_courier.py:454-458, 727-731). A refresh whose connection cannot be opened is caught there: the committed claim or change is then reported as a failure, the rollback undoes nothing, and the selection is kept. The contracts assume the connection opens, so a reported failure always means the orders are unchanged.
- The handlers below refresh a list after their `commit()` inside the same `try`. A refresh that raises is caught by the handler's `except`: the committed write is then reported as a failure, and a rollback, where there is one, undoes nothing. Each contract assumes the refresh succeeds, so its failure outcomes always mean no data changed.
- `ClientScreen.ClientSession.CreateOrder`: `_load_products()` and `_load_orders()` run after the commit with no `try` of their own (ui_client.py:794-795, 433-441). When one raises, the orders and stock decrements stay committed and the cart is already empty, but the checkout is reported as failed and the selected product is kept.
- `ClientScreen.ClientSession.AddPayment`: `_load_payment_data()` has no `try` (ui_client.py:1593, 1532-1540). When it raises, the committed card is reported as an error and the selected card is kept.
- `ClientScreen.ClientSession.EditPayment`: when `_load_payment_data()` raises after the commit (ui_client.py:1632), the committed update is reported as an error.
- `ClientScreen.ClientSession.DeletePayment`: when `_load_payment_data()` raises after the commit (ui_client.py:1656), the committed delete is reported as an error and the selected card is kept.
- `Registration.AddAdmin`: `load_admins()` has a `try` with no `except` (ui_login.py:709, 656-677). When it raises, the committed administrator is reported as not added.
- `AdminScreen.AddProduct`: the `callback` refresh reaches `load_table`, whose `get_connection()` runs before its `try` (ui_admin.py:1024, 357). When it raises, the committed product is reported as not added and the dialog stays open.
- `AdminScreen.EditProduct`: the same refresh after the commit (ui_admin.py:1171, 357) reports a committed update as failed.
- `AdminScreen.AddUser`: the same refresh after the commit (ui_admin.py:763, 357) reports a committed user as not added.
- `AdminScreen.EditUser`: the same refresh after the commit (ui_admin.py:826, 357) reports a committed update as failed.
- `AdminScreen.EditOrderStatus`: the same refresh after the commit (ui_admin.py:1267, 357) reports a committed status as not saved.
- `AdminScreen.AdminPanel.DeleteRecord`: `refresh_table()` after the commit (ui_admin.py:635, 357) reports a committed delete as failed.
- `AdminScreen.EditOrderStatus`: `save` has no rollback. When `get_connection()` itself raises, the `finally` clause's `conn.close()` raises `UnboundLocalError` (ui_admin.py:1254-1273). No data changes, which the contract's failure case states; the second exception is not modelled.
- An account of role Клиент or Курьер without its profile row (the administrator's user dialog makes such accounts) opens its window with a None id, and SQL's `= NULL` never matches. `ClientScreen.OwnedBy` and `CourierScreen.Assigned` model that test.
- Unique logins are the database's UNIQUE constraint on Пользователь.Логин, which no handler checks. The four inserts of a user do no lookup first (ui_login.py:412-420, ui_login.py:694-698, ui_admin.py:756-759, main.py:197-201). So the "login taken" failure of `Registration.RegisterResult`, `Registration.InsertAccount`, `Registration.AddAdmin`, `AdminScreen.AddUser` and `LoginWindow.WithDefaultAdmin` is that INSERT raising and rolling back. `UniqueLogins` in `Valid()` is what the constraint keeps.
- The foreign keys of the schema are assumed, because the DDL is not part of this model. The card table's client column is taken to be a required (NOT NULL) foreign key, so `ClientScreen.ClientSession.AddPayment` fails for a session without a Клиент row; a nullable column would let the source store a card with no owner and report success. A user row referred to by a Клиент or Курьер row, a product referred to by an order, and a card referred to by an order cannot be deleted, and no delete cascades. `AdminScreen.Referenced` and `ClientScreen.PaidWith` encode this. `AdminScreen.Linked` is not part of `Valid()`, because the inserts do not check references. `AdminScreen.AdminPanel.DeleteRecord` only promises that a delete keeps references resolvable when they all resolved before.
- Concurrency is not modelled. Each handler is one transaction, so the read-then-write gaps of claiming and checkout, which only matter between processes, do not appear.
- SQL collation is not modelled. Logins and statuses compare exactly, where SQL Server's default collation ignores case and trailing blanks.
- `Text.LowerChar` lower-cases only Basic Latin and Cyrillic capitals, because the table names need no other.
- `Text.ParseInt` reads ASCII digits only. Python's `int()` also accepts other Unicode decimal digits.
- The hash function is a parameter. Nothing is assumed about it, so no contract relies on it being injective.
- The loaders' own SELECT queries (the column lists of `load_users` and the rest) are not modelled; `LoadTable` takes the query's rows as a parameter.
- `AdminScreen.FormatCell`: an `OtherCell` carries the text `str()` gives it (decimals, dates and other driver types) as data. Years below 1000 and fields wider than the format are not covered by the read-back property, because `strftime` padding there depends on the platform.
- `AdminScreen.AdminPanel.constructor` leaves the initial `load_users` call to the caller, as a separate `LoadTable`.
- The uniqueness of a Клиент or Курьер row per user is not part of `Valid()`. `LoginWindow.ClientOf` and `CourierOf` take the smallest matching identity value where the database's `fetchone` takes whichever row comes first.
- `Registration.MissingFields` models `validate_required_fields` as a pure function: its appends follow a fixed order, so it is the filtered list of required fields.
- `Registration.Register`: a role other than Клиент or Курьер (the role combobox accepts typed text) inserts the user and no profile row, as the source does.
- `CourierScreen.ChangeStatus`: any non-empty typed text is accepted as the new status, including "доставлен" again, as the source does.
- `ClientScreen.EditCard`: the UPDATE of a card that is not the client's changes no row and still reports success, as the source does.
- `AdminScreen.EditUser` and `AdminScreen.EditProduct`: the UPDATE of a row that no longer exists changes nothing and still reports success.
- `LoginWindow.CreateDefaultAdmin`: the swallowed exception and its printed message are modelled only as "nothing changes".
