# Restaurant point of sale — a verified model

This project models the core of a restaurant point-of-sale system in Dafny. The system has the same HTTP API on two servers:

- an Express server over PostgreSQL (`backend/`);
- a Cloudflare Workers server over D1 (`cloudflare/`).

A React front end (`frontend/`) drives both servers.

The model covers these parts of the servers:

- orders and their items, with stock taken and given back, totals recomputed, and orders closed and cancelled;
- payments and their reversal;
- stock administration;
- tables and areas;
- the product and category catalogue, and the menu (`cardapio`);
- users, login, and the two authentication middlewares with their JWT handling.

On the front end it models:

- the field validators;
- the pagination bar and the pagination hook;
- the route guard;
- the cashier screen;
- the stock screen;
- the kitchen display;
- the order-entry screen.

## How the model is organised

All tables live in one `Database` class (module `Schema`):

- Products, categories, tables, areas, orders and users are maps from id to row.
- Order items and payments are sequences in insertion order, because the handlers sum and count over them.
- Nullable columns are `Option`s. A request field is a `Field`, which tells a field left out (`undefined`) from one sent as null; the handlers treat the two differently.
- The search filters are SQL patterns, modelled in module `SqlLike`.

Each route handler is a method on that class. The method's `modifies` clause names only the tables the handler writes. Its `ensures` clauses state every refusal, and the new state as a function of the old one; those functions live in the modules `Ledger`, `Catalog` and `Stock`. The lemmas then prove what the system promises about those functions:

- stock given back undoes stock taken;
- a recomputed total is the sum of the live items;
- order creation keeps at most one active order per table, while the forced `pronto` of the item-status route can break that rule;
- the payment envelope;
- and so on.

Where the two servers differ, a `Deployment` parameter (`Backend` or `Cloudflare`) selects the behaviour. The main differences:

- Workers stores falsy values as NULL.
- Workers requires a supervisor to cancel.
- For a request without a user, Express's role gate answers 401 and Workers' answers 403. For a wrong role, both answer 403.

JavaScript truthiness (`x || d`, `if (!x)`) is written out explicitly. Money is kept in integer cents. The 0.01 tolerance of the payment check is one cent.

Front-end screens whose state the source changes through React setters are classes: `Cashier.CashierScreen`, `StockView.StockPage`, `Kitchen.KitchenScreen`, `PagedList.Pager` and `Pdv.QuantityDialog`. Their methods carry `modifies` clauses. The pure parts are functions with lemmas: the filters, the comparators, the page window and the validators.

The Workers cancel test (`cloudflare/tests/api.test.js:419-430`) sends no supervisor password and expects success. The Workers route (`cloudflare/src/routes/pedidos.js:305-336`) refuses that request. The model follows the route.

The order-entry screen changes an item's quantity by deleting the item and adding it again. `Pdv.UpdateQuantity` states the two consequences:

- if the second step is refused, the item stays deleted;
- the new row takes the product's current name and price.
- when the row still holds the quantity shown, the product's tracked stock moves by exactly minus the change (`Pdv.QuantityChangeStock`).

## Model

| member | source | states |
|---|---|---|
| Common.DefaultTo | backend/src/routes/pagamentos.js:115 | a destructuring default applies only when the field is absent; a field sent as null keeps null |
| Common.StrOr | backend/src/routes/auth.js:106 | `x \|\| d` on text: the default replaces a missing or empty string, any other string is kept |
| Common.IntOr | backend/src/routes/mesas.js:118 | `x \|\| d` on a number: the default replaces a missing value or 0, any other number is kept |
| Common.NullIfEmpty | cloudflare/src/routes/pagamentos.js:115 | `x \|\| null`: a value is stored exactly when it is a non-empty string, and then unchanged |
| Text.TrimStartSpec | backend/src/routes/auth.js:106 | trimming the start removes exactly the leading run of white space |
| Text.TrimEndSpec | backend/src/routes/auth.js:106 | trimming the end removes exactly the trailing run of white space |
| Text.TrimEmptyIff | backend/src/routes/auth.js:106 | a trimmed string is empty exactly when the input was all white space |
| Text.TrimIdempotent | backend/src/routes/auth.js:106 | trimming twice is trimming once |
| Text.LowerAt | backend/src/routes/auth.js:23 | lower-casing maps each character on its own and keeps the length |
| Text.LowerIdempotent | backend/src/routes/auth.js:23 | lower-casing twice is lower-casing once |
| Text.TrimLower | backend/src/routes/auth.js:23 | trimming and lower-casing commute |
| Text.NormalizeEmailIdempotent | backend/src/routes/auth.js:95 | a normalised address normalises to itself, so the lookup at login finds the address stored at registration |
| Text.JoinSplit | cloudflare/src/middleware/auth.js:16 | joining the parts of a split on the same separator gives back the original text |
| Text.SplitJoin | cloudflare/src/middleware/auth.js:85 | splitting a join of separator-free parts gives back exactly those parts |
| Schema.StoredText | cloudflare/src/routes/pedidos.js:199 | a free-text column is stored as sent on Express and as null when empty on Workers |
| Schema.StoredRef | cloudflare/src/routes/pedidos.js:161 | a foreign id is stored as sent on Express; Workers stores a falsy id (0 or none) as null |
| Ledger.Debit | backend/src/routes/pedidos.js:249-252 | taking stock lowers only the product's stock by the quantity; an untracked (null) stock stays null and every other column is kept |
| Ledger.DebitOthers | backend/src/routes/pedidos.js:249-252 | taking stock from one product leaves every other product row as it was |
| Ledger.Credit | backend/src/routes/pedidos.js:375-381 | giving stock back does nothing for an item without a product (falsy id) and keeps the set of products |
| Ledger.CreditSpec | backend/src/routes/pedidos.js:375-381 | giving stock back changes only stock: a tracked product named by a non-zero id gains the quantity, untracked and other products keep theirs |
| Ledger.CreditUndoesDebit | backend/src/routes/pedidos.js:375-381 | giving back what was just taken restores the product table exactly |
| Ledger.CreditRowsStock | backend/src/routes/pedidos.js:478-486 | after the cancel loop, every tracked product holds its old stock plus every unit the credited rows hold of it; untracked products stay untracked |
| Ledger.RecalcOthers | cloudflare/src/routes/pedidos.js:7-22 | recomputing one order's totals leaves every other order row as it was |
| Ledger.Recalc | cloudflare/src/routes/pedidos.js:7-22 | the order's subtotal becomes the sum of its non-cancelled items and its total the subtotal plus fee minus discount; nothing else changes, and a missing order stays missing |
| Ledger.RecalcTwice | frontend/src/pages/PDV.jsx:301-321 | recomputing an order's totals twice in a row is recomputing them once from the last items |
| Ledger.CreditThenDebit | frontend/src/pages/PDV.jsx:301-321 | giving back one quantity of a product and taking another moves only that product's tracked stock, by the difference |
| Ledger.StartProduction | backend/src/routes/pedidos.js:265-268 | an `aberto` order moves to `producao`, any other status is kept, and no other column changes |
| Ledger.SetOrderStatus | backend/src/routes/pedidos.js:335 | the unconditional status update changes only that order's status |
| Ledger.StatusUpdatesOthers | backend/src/routes/pedidos.js:265-268 | both status updates leave every other order row as it was |
| Ledger.SetTableStatus | backend/src/routes/pedidos.js:428-433 | without a truthy table id nothing changes; the set of tables is kept |
| Ledger.SetTableStatusSpec | backend/src/routes/pedidos.js:428-433 | only the named table's status changes |
| Ledger.SetTableStatusKeepsNumeros | backend/src/routes/pedidos.js:428-433 | a status update keeps table numbers unique |
| Ledger.FindRowSpec | backend/src/routes/pedidos.js:303-306 | the lookup by item id and order id finds a row exactly when one matches both, and then the first |
| Ledger.RemoveRows | backend/src/routes/pedidos.js:365-368 | the delete never adds rows |
| Ledger.RemoveAbsentRow | backend/src/routes/pedidos.js:365-372 | deleting an id no row has changes nothing |
| Ledger.SetRowStatusSpec | backend/src/routes/pedidos.js:317-320 | the rows matching both ids take the new status; every other row, and every row's place, is kept |
| Ledger.PendingCountZeroIff | backend/src/routes/pedidos.js:327-337 | the count of unfinished items is zero exactly when every item of the order is `pronto`, `entregue` or `cancelado` (also when it has none) |
| Ledger.LiveRowsOfSpec | backend/src/routes/pedidos.js:472-476 | the rows credited on cancellation are exactly the order's rows that are not cancelled |
| Ledger.PaidTotalWithout | backend/src/routes/pagamentos.js:207 | deleting one payment lowers its own order's paid total by exactly its amount and no other order's |
| Ledger.PaymentEnvelope | backend/src/routes/pagamentos.js:164-184 | the response reports the new paid total; `pagamento_completo` holds iff it reaches the order total; `restante` is never negative, is 0 iff complete, and otherwise adds up with the paid total to the order total |
| Ledger.BackendCancelNote | backend/src/routes/pedidos.js:489-491 | `CANCELADO: <motivo or default>`, after the old note and ` \| ` when there is one (an empty old note still gets the separator) |
| Ledger.CloudflareCancelNote | cloudflare/src/routes/pedidos.js:353-358 | `CANCELADO por <name>: <motivo or default>`, after ` \| ` only when the old note is non-empty |
| Ledger.CancelNotesKeepHistory | backend/src/routes/pedidos.js:489-491 | both notes keep a previous note as a prefix and end with the reason |
| Orders.OrderStatusCode | cloudflare/src/routes/pedidos.js:305-337 | the HTTP code of each refusal: 404 for a missing product, item, order or supervisor; 403 for a non-supervisor or a wrong password; 400 otherwise |
| Orders.InsertKeepsOneActive | backend/src/routes/pedidos.js:166-178 | inserting an order on a table without an active order keeps "at most one active order per table" |
| Orders.ForcedReadyCanBreakOneActive | backend/src/routes/pedidos.js:334-336 | the forced `pronto` ignores the order's status: a cancelled order whose table was reopened becomes active again, giving the table two active orders |
| Orders.IntendedReady | backend/src/routes/pedidos.js:326-336 | the intended readiness step: only an active order moves to `pronto` once nothing is pending; a paid or cancelled order, and every other order, keeps its row |
| Orders.IntendedReadyKeepsOneActive | backend/src/routes/pedidos.js:326-336 | the intended step changes no order's activeness, so it keeps at most one active order per table |
| Orders.CreateOrder | backend/src/routes/pedidos.js:162-206 | a truthy table with an active order is refused with that order's id and nothing changes; otherwise the order is inserted `aberto` with zero totals, `tipo` defaulting to `mesa` only when left out (a `tipo` sent as null is stored as NULL), and the table marked `ocupada` |
| Orders.QtyOrOne | backend/src/routes/pedidos.js:216 | only an absent quantity defaults to 1; a quantity sent as null compares as 0 |
| Orders.NullQuantityRefused | backend/src/routes/pedidos.js:216-222 | a quantity sent as null is refused as below 1 (400), while a quantity left out behaves as 1 |
| Orders.CheckAddItem | backend/src/routes/pedidos.js:218-247 | the add-item checks in order: a falsy product (400), a quantity below 1, null included (400), an unknown product (404), a tracked stock below the quantity (400, reporting the stock); none fails iff all hold |
| Orders.AddItem | backend/src/routes/pedidos.js:213-281 | a refusal (a null quantity among them) changes nothing; otherwise the item is appended with the product's name and price, subtotal price × quantity and status `pendente`, the stock drops, the totals are recomputed and an `aberto` order moves to `producao` |
| Orders.ParseItemStatus | backend/src/routes/pedidos.js:296-298 | accepts exactly the five kitchen status names |
| Orders.SetItemStatus | backend/src/routes/pedidos.js:291-350 | an unknown status (400) or row (404) changes nothing; otherwise the row takes the status, a cancelled row's stock goes back, and the order becomes `pronto` when no unfinished item is left |
| Orders.RemoveItem | backend/src/routes/pedidos.js:360-393 | an unknown row gives 404 with nothing changed; otherwise the row is deleted, its stock goes back and the totals are recomputed |
| Orders.AddThenRemove | backend/src/routes/pedidos.js:360-381 | adding an item and then removing the row just added restores the item and product tables, stock included |
| Orders.FindRowAfterAbsent | backend/src/routes/pedidos.js:255-261 | a row appended with a fresh id is the one a later lookup by that id finds |
| Orders.CloseOrder | backend/src/routes/pedidos.js:403-445 | an unknown order (404) or payments below the total (400) change nothing; otherwise the order is `pago` with the closing time and its table `livre` |
| Orders.ReturnStock | backend/src/routes/pedidos.js:471-486 | the stock loop credits exactly the order's non-cancelled rows, in table order |
| Orders.CreditRowsStep | backend/src/routes/pedidos.js:478-486 | one more turn of the loop credits one more row; a row without a product credits nothing |
| Orders.CancelOrderBackend | backend/src/routes/pedidos.js:455-498 | an unknown order (404) or a paid one (400) changes nothing; any other, even one already cancelled, returns its stock again, becomes `cancelado` with the note and frees its table |
| Orders.CancelOrderCloudflare | cloudflare/src/routes/pedidos.js:305-365 | the supervisor checks in order (role 403, missing password 400, inactive or missing user 404, wrong password 403), then the Express order checks and effects with the Workers note |
| Middleware.BearerToken | backend/src/middleware/auth.js:9-14 | a token is read exactly when the header is present and starts with `Bearer ` |
| Middleware.BearerTokenRoundTrip | backend/src/middleware/auth.js:14 | a header `Bearer <t>` with a token free of spaces yields that token |
| Middleware.ActiveUser | backend/src/middleware/auth.js:17-24 | the lookup finds a user exactly when the id exists and the account is active, and returns its id, profile and e-mail |
| Middleware.Authenticate | backend/src/middleware/auth.js:6-34 | 401 `Token não fornecido` without a Bearer header, `Token expirado` for an expired token, `Token inválido` for any other error, an unknown or inactive user refused; otherwise that user |
| Middleware.RoleCheck | backend/src/middleware/auth.js:36-48 | no user is a 401, a profile outside the roles a 403, and the request passes exactly when the profile is one of the roles |
| Middleware.RoleGate | cloudflare/src/middleware/auth.js:109-112 | both servers admit the same users; Express answers 401 or 403, Workers always 403 |
| Middleware.PadCount | cloudflare/src/middleware/auth.js:7 | the padding loop appends fewer than four `=` and makes the length a multiple of 4 |
| Middleware.Base64UrlDecode | cloudflare/src/middleware/auth.js:5-12 | the text given to `atob` is the mapped alphabet plus padding, its length a multiple of 4, and the bytes are `atob`'s character codes |
| Middleware.BytesOfBinary | cloudflare/src/middleware/auth.js:9-10 | the bytes stored are exactly the character codes of the binary string |
| Middleware.StripPaddingOf | cloudflare/src/middleware/auth.js:66 | stripping the trailing `=` run removes exactly the padding that was added |
| Middleware.DecodeUndoesEncode | cloudflare/src/middleware/auth.js:66 | the decoder's alphabet and padding steps undo the encoder's: a standard base64 string comes back exactly |
| Middleware.VerifyJwt | cloudflare/src/middleware/auth.js:15-42 | a token verifies exactly when it has three parts, a valid signature over the first two, a payload that decodes and no expired `exp`, and then yields that payload |
| Middleware.SignedTokenVerifies | cloudflare/src/middleware/auth.js:85 | a token assembled as header.payload.signature verifies whenever its signature and payload do and it has not expired |
| Middleware.LifetimeSeconds | cloudflare/src/middleware/auth.js:48-58 | the lifetime is never negative and is 28800 seconds for any text that is not a count and a unit |
| Middleware.LifetimeOf | cloudflare/src/middleware/auth.js:50-57 | `<n>h`, `<n>m`, `<n>s` and `<n>d` read back as n hours, minutes, seconds and days |
| Middleware.DefaultLifetime | cloudflare/src/middleware/auth.js:45-49 | the default `8h` agrees with the 28800-second fallback |
| Middleware.SignedClaimsLifetime | cloudflare/src/middleware/auth.js:61-62 | a freshly signed token lasts exactly its lifetime: not expired at signing time, expired strictly after its `exp` second (a zero `exp` never expires) |
| Middleware.NoExpiryNeverExpires | cloudflare/src/middleware/auth.js:37-39 | a token whose payload has no `exp` verifies at every time or at none |
| Middleware.AuthenticateWorker | cloudflare/src/middleware/auth.js:89-106 | a user is returned exactly when the header carries a Bearer token that verifies and names an active user; every failure is null |
| Middleware.MiddlewaresAgree | cloudflare/src/middleware/auth.js:89-106 | with a verifier that agrees, Workers yields a user exactly when Express does, and the same user |
| Payments.PaymentStatusCode | backend/src/routes/pagamentos.js:117-140 | 404 exactly for an unknown order or payment, 400 for every other refusal |
| Payments.ParseMethod | backend/src/routes/pagamentos.js:125-127 | accepts exactly the five method names, `voucher` included |
| Payments.CheckPayment | backend/src/routes/pagamentos.js:117-155 | each error is returned exactly when every earlier check passed and its own fails, in the handler's order: missing or falsy order, method or amount; amount not positive; unknown method; unknown order (404); order `pago`; order `cancelado`; amount over what is owed plus one cent (reporting the remainder); no error iff all pass. The Workers handler runs the same checks in the same order (cloudflare/src/routes/pagamentos.js:84-109), so the function has no deployment parameter |
| Payments.PaidTotalAppend | backend/src/routes/pagamentos.js:144-164 | a new payment adds its amount to its own order's paid total and to no other |
| Payments.RecordPayment | backend/src/routes/pagamentos.js:113-184 | a refusal changes nothing; otherwise the payment is appended (`troco` 0 only when left out, NULL when sent as null) and the response envelope reports the new paid total and what is left |
| Payments.SpliceKeepsPaymentIds | backend/src/routes/pagamentos.js:207 | deleting one payment row keeps ids distinct, removes that id (which no other row carried) and leaves every remaining payment pointing at an existing order |
| Payments.ReversePayment | backend/src/routes/pagamentos.js:191-214 | an unknown payment (404) or one whose order is `pago` (400) changes nothing; otherwise exactly that row is deleted and its order's paid total drops by its amount |
| Payments.SettlingTheRemainderCompletes | backend/src/routes/pagamentos.js:148-184 | paying exactly what is owed is accepted and reports the order complete with nothing left |
| Payments.OneCentTolerance | backend/src/routes/pagamentos.js:150 | one cent over the remainder is accepted, two are refused |
| Payments.OverpaymentScenario | backend/__tests__/pagamentos.test.js:141-153 | R$ 30,00 on a R$ 100,00 order already paid R$ 80,00 is refused, reporting R$ 20,00 left |
| SqlLike.TokensPlainThen | backend/src/routes/produtos.js:28-30 | a term without `%`, `_` or backslash is read as its own case-folded characters, whatever follows it |
| SqlLike.MatchRun | backend/src/routes/produtos.js:28-30 | a leading `%` matches exactly when the rest of the pattern matches some suffix of the text |
| SqlLike.MatchLitsRun | backend/src/routes/produtos.js:28-30 | literal characters followed by `%` match exactly the texts that start with them |
| SqlLike.PlainSearchIsContainment | backend/src/routes/produtos.js:28-30 | for a term without pattern characters, the search `'%' + busca + '%'` is exactly case-insensitive containment, on both databases (also cloudflare/src/routes/produtos.js:49) |
| SqlLike.PercentMatchesAll | backend/src/routes/estoque.js:25-27 | a search for `%` matches every text |
| SqlLike.UnderscoreMatchesAnyChar | cloudflare/src/routes/estoque.js:34-36 | `_` in the term matches any one character, so the search finds texts that do not contain the term |
| SqlLike.BackslashEscapesOnPostgres | backend/src/routes/produtos.js:28-30 | PostgreSQL reads a backslash as an escape that makes `_` literal; SQLite reads it as itself and the `_` as a wildcard |
| Stock.StockStatusCode | backend/src/routes/estoque.js:70-104 | 401 without a user and 403 for another profile (the router's gate), 404 exactly for an unknown product, 400 otherwise |
| Stock.StockGate | backend/src/app.js:118 | on Express every stock route admits exactly the admins and managers, answering 401 without a user and 403 for any other profile; the Workers handlers admit everyone they receive |
| Stock.StaffRefused | backend/src/app.js:118 | a waiter or a cashier gets 403 from the stock list and the alerts on Express, before any handler runs |
| Stock.AdjustQuantity | cloudflare/src/routes/estoque.js:61-64 | Express reads only `quantidade`; Workers prefers `estoque_quantidade` when it is sent |
| Stock.CheckAdjust | backend/src/routes/estoque.js:70-92 | nothing sent (400), then a negative quantity, then a negative minimum, all before any write; null is not negative |
| Stock.AdjustedSpec | backend/src/routes/estoque.js:78-101 | only the stock fields that were sent change; everything else in the product row is kept |
| Stock.AdjustIdempotent | backend/src/routes/estoque.js:78-101 | sending the same adjustment twice has the effect of sending it once |
| Stock.AdjustStock | backend/src/routes/estoque.js:65-107 | the gate refuses first (Express); then a failed check returns its error, an unknown product 404, both with nothing changed; otherwise only that product's row is rewritten |
| Stock.ActivateDefaults | backend/src/routes/estoque.js:117-125 | `ativar` without a body tracks quantity 0 with minimum 5 and keeps the rest of the row |
| Stock.ControlledSpec | cloudflare/src/routes/estoque.js:140-154 | turning control on tracks the product, keeps numbers already set and is idempotent; turning it off is `desativar`; on an untracked product it is `ativar` with no body |
| Stock.UpdateTracking | backend/src/routes/estoque.js:119-131 | an unknown product is 404 with nothing changed; otherwise only that row is rewritten |
| Stock.ActivateStock | backend/src/routes/estoque.js:114-135 | after the gate, `ativar` sets quantity and minimum (defaults 0 and 5) on a known product, 404 otherwise; a refusal changes nothing |
| Stock.DeactivateStock | backend/src/routes/estoque.js:138-158 | after the gate, `desativar` clears both stock fields of a known product, 404 otherwise; a refusal changes nothing |
| Stock.SetStockControl | cloudflare/src/routes/estoque.js:134-159 | the Workers toggle applies the control rule to a known product, 404 otherwise |
| Stock.StockListLeTotal | backend/src/routes/estoque.js:30-34 | the list order (low stock first, then name) is a total preorder |
| Stock.StockListSpec | backend/src/routes/estoque.js:11-37 | the list holds exactly the tracked rows passing the low-stock filter and the search, read as the `ILIKE`/`LIKE` pattern `'%' + busca + '%'` of its database, each as often as in the table, with every low-stock row before every other |
| Stock.AlertsSpec | backend/src/routes/estoque.js:44-58 | the alerts are exactly the active tracked rows with a minimum at or below it, furthest below first |
| Stock.ListStock | backend/src/routes/estoque.js:7-41 | GET /api/estoque: a refused caller gets the gate's error; otherwise exactly the tracked rows passing the filters, low-stock rows first |
| Stock.ListAlerts | backend/src/routes/estoque.js:44-62 | GET /api/estoque/alertas: a refused caller gets the gate's error; otherwise exactly the alert rows, furthest below first |
| Tables.TableStatusCode | backend/src/routes/mesas.js:81-149 | 401, 403 and 404 each for exactly one refusal, 400 for the rest |
| Tables.ParseTableStatus | backend/src/routes/mesas.js:81-83 | accepts exactly `livre`, `ocupada` and `reservada` |
| Tables.SetStatus | backend/src/routes/mesas.js:76-99 | an unknown status (400, checked first) or table (404) changes nothing; otherwise only the status changes |
| Tables.OrderItems | backend/src/routes/mesas.js:46-62 | the active order's `itens` are its items in insertion order, except that Express sends NULL exactly when the order has no item; Workers always sends the list |
| Tables.EmptyOrderItems | cloudflare/src/routes/mesas.js:66-74 | for an order without items Express sends `itens` NULL and Workers an empty list |
| Tables.GetTable | backend/src/routes/mesas.js:36-69 | 404 for an unknown table; otherwise the table with an active order when one exists, carrying its `itens` as its server sends them, none otherwise; with one active order per table it is that order |
| Tables.NewTable | backend/src/routes/mesas.js:114-118 | a new table is `livre`, seats 4 and is in `salao` unless truthy values are sent |
| Tables.CreateTable | backend/src/routes/mesas.js:106-130 | the role gate, then a required `numero` (400), then a taken `numero` (400, the UNIQUE constraint); otherwise the row is inserted with the next id |
| Tables.DeleteTable | backend/src/routes/mesas.js:133-154 | the role gate, then a table with an active order is kept (400), then an unknown table is 404; otherwise exactly that table is removed |
| Tables.FloorLeTotal | backend/src/routes/mesas.js:22-25 | the floor order is a total preorder |
| Tables.ItemCount | backend/src/routes/mesas.js:19 | the `qtd_itens` count is at most the number of item rows, and zero exactly when no item row belongs to the order |
| Tables.OrderRowsSpec | backend/src/routes/mesas.js:21 | the rows joined to one table are exactly its active orders' columns, and there are none iff the table has no active order |
| Tables.TableRowsSpec | backend/src/routes/mesas.js:20-21 | the LEFT JOIN gives every table at least one row: its active orders, or one row with NULL order columns |
| Tables.JoinedSpec | backend/src/routes/mesas.js:13-21 | a row is in the join exactly when its table is stored and its order columns are those of one active order of that table, or NULL when there is none |
| Tables.FloorListSpec | backend/src/routes/mesas.js:13-29 | the list is the join (one row per table and active order, one row with no order for a table without one) as a permutation, every table is listed, and the rows are sorted by the `BAL` flag, then `LENGTH(numero)`, then `numero` |
| Tables.FloorOrderExample | backend/src/routes/mesas.js:22-25 | table "2" sorts before "10", and both before `BAL` |
| Orders.InsertOrder | backend/src/routes/pedidos.js:183-195 | the new order gets a fresh id and its table, when it has one, becomes occupied; nothing else changes |
| Orders.InsertItem | backend/src/routes/pedidos.js:236-268 | the new item row copies the product's current name and price, starts pending and is appended; the product's stock is debited and the order's total recalculated and set to production |
| Orders.WriteItemStatus | backend/src/routes/pedidos.js:302-337 | the item's status is written, a cancelled item's stock goes back, and the order becomes ready exactly when no item is left pending or in preparation |
| Orders.ApplyCancel | backend/src/routes/pedidos.js:472-497 | cancelling returns the stock of every item not cancelled, marks the order cancelled with its note and closing time, and frees its table |
| Orders.MarkCancelled | backend/src/routes/pedidos.js:488-497 | the order is marked cancelled with its note and closing time and its table is freed |
| Payments.InsertPayment | backend/src/routes/pagamentos.js:157-162 | the new payment gets the next id and is appended, and nothing else changes |
| Tables.InsertTable | backend/src/routes/mesas.js:114-118 | the new table gets a fresh id under a number no other table has |
| Catalog.CatalogStatusCode | backend/src/routes/produtos.js:124-130 | a missing field is 400, a bad token 401, a wrong role 403, an unknown id 404, and nothing else is answered |
| Catalog.Coalesce | backend/src/routes/produtos.js:153-165 | `COALESCE($n, col)`: a supplied value replaces the column, an absent one keeps it |
| Catalog.CoalesceOpt | backend/src/routes/produtos.js:153-165 | the same for a nullable column |
| Catalog.WorkerFlag | cloudflare/src/routes/produtos.js:141-145 | on Workers a boolean that was sent is stored as 1 exactly when it is `true`; one left out keeps the column |
| Catalog.NullIfZero | cloudflare/src/routes/produtos.js:141-145 | `x \|\| null` on a number: 0 and a missing value both become NULL, anything else is kept |
| Catalog.UpdatedProductSpec | cloudflare/src/routes/produtos.js:122-150 | an update never touches the stock columns; each field left out keeps its value; on Express each sent field is stored, on Workers an empty name or a zero price is ignored |
| Catalog.UpdatedProductIdempotent | backend/src/routes/produtos.js:148-173 | applying the same update twice is applying it once, on both servers |
| Catalog.EmptyProductPatch | backend/src/routes/produtos.js:153-165 | an update with no fields leaves the product as it was |
| Catalog.ZeroPriceUpdate | cloudflare/src/routes/produtos.js:141-145 | a price update to 0 is stored by Express and silently ignored by Workers |
| Catalog.NewProduct | backend/src/routes/produtos.js:136 | a new product is active, has the given name and price, no stock figures, and a preparation time of 15 minutes unless one is given |
| Catalog.CreateProduct | backend/src/routes/produtos.js:120-141 | only admins and managers may create; a missing name or price and a negative price are refused, each exactly in its case; on success exactly one product row is added under a fresh id |
| Catalog.UpdateProduct | backend/src/routes/produtos.js:148-173 | only admins and managers may update; an unknown id is 404; on success only that product changes, to the merged value |
| Catalog.DeleteProduct | backend/src/routes/produtos.js:180-195 | deleting marks the product inactive and changes nothing else; an unknown id is 404 |
| Catalog.GetProduct | backend/src/routes/produtos.js:98-113 | found exactly when the id exists; the row comes with its category's name when the category exists |
| Catalog.ProductLeTotal | backend/src/routes/produtos.js:49 | `ORDER BY c.ordem, p.nome` is total and transitive on both databases |
| Catalog.ProductListSpec | backend/src/routes/produtos.js:8-62 | a row is listed exactly when it passes the category filter (any `categoria_id` sent, `0` included, keeps only that category) and the active filter, and its name or code matches the pattern `'%' + busca + '%'` (`ILIKE` on PostgreSQL with backslash escapes, `LIKE` on SQLite); without an `ativo` filter only active products are listed, with `ativo=false` only inactive ones; the rows are sorted by category position (products without a category last on PostgreSQL, first on SQLite) and then by name |
| Catalog.CategoryZeroFilters | backend/src/routes/produtos.js:15-18 | `?categoria_id=0` is truthy text: a product of category 5 is dropped and one of category 0 kept, on both servers |
| Catalog.UpdatedCategorySpec | backend/src/routes/categorias.js:64-87 | fields left out keep their value; Workers ignores an empty name; every other sent field is stored |
| Catalog.NewCategory | backend/src/routes/categorias.js:41-57 | a new category is active, has the given name and the order 0 unless one is given; on Workers an empty icon is stored as NULL |
| Catalog.CreateCategory | backend/src/routes/categorias.js:41-57 | only admins and managers may create; a missing name is refused; on success exactly one category row is added |
| Catalog.UpdateCategory | backend/src/routes/categorias.js:64-87 | only admins and managers may update; an unknown id is 404; on success only that category changes |
| Catalog.DeleteCategory | backend/src/routes/categorias.js:94-110 | deleting marks the category inactive and changes nothing else; an unknown id is 404 |
| Catalog.GetCategory | backend/src/routes/categorias.js:25-34 | found exactly when the id exists, and then it is that row |
| Catalog.CategoryLeTotal | backend/src/routes/categorias.js:8-14 | `ORDER BY ordem, nome` is a total preorder |
| Catalog.CategoryListSpec | backend/src/routes/categorias.js:8-14 | the list holds exactly the active categories, as a permutation, sorted by `ordem` and then by `nome` |
| Catalog.NameLeTotal | backend/src/routes/produtos.js:49 | ordering products by name is a total preorder |
| Catalog.Menu | backend/src/routes/produtos.js:69-91 | the menu has one section per active category |
| Catalog.SectionSpec | backend/src/routes/produtos.js:78-87 | a section lists exactly the active products of its category |
| Catalog.MenuSpec | backend/src/routes/produtos.js:69-91 | every section is an active category from the table, listing exactly the active products of that category |
| Catalog.MenuCoversCategories | backend/src/routes/produtos.js:74-76 | every active category has a section in the menu |
| Areas.AreaStatusCode | cloudflare/src/routes/areas.js:37-56 | a wrong role is 403, an unknown area 404, every other refusal 400 |
| Areas.TableCount | cloudflare/src/routes/areas.js:101-107 | the count is 0 exactly when no table belongs to the area |
| Areas.CreateArea | cloudflare/src/routes/areas.js:37-56 | a wrong role, a missing name and a name already used are refused, each exactly in its case; on success exactly one area is added |
| Areas.MergedArea | cloudflare/src/routes/areas.js:73-76 | an update that sends nothing keeps the area as it was; a field sent as null is written as NULL |
| Areas.MergedAreaIdempotent | cloudflare/src/routes/areas.js:73-76 | applying the same update twice is applying it once; each sent field, null included, is the new value and each field left out is kept |
| Areas.UpdateArea | cloudflare/src/routes/areas.js:60-89 | a wrong role, an unknown id and a non-null name used by another area are refused, each exactly in its case; on success only that area changes, to the merge of the sent fields |
| Areas.DeleteArea | cloudflare/src/routes/areas.js:93-117 | a wrong role and an area that still has tables are refused, then an unknown id is 404, each exactly in its case; on success only that area is removed and no table refers to it |
| Areas.AreaNameLeTotal | cloudflare/src/routes/areas.js:7-16 | ordering areas by name, NULL names first as SQLite sorts them, is a total preorder |
| Areas.AreaList | cloudflare/src/routes/areas.js:7-16 | the list has one entry per active area |
| Areas.AreaListSpec | cloudflare/src/routes/areas.js:7-16 | every entry is an area whose `ativo` is 1 (true), with its number of tables; every such area is listed; the list is sorted by name with NULL names first |
| Areas.NumeroLeTotal | cloudflare/src/routes/areas.js:29-31 | ordering tables by number is a total preorder |
| Areas.GetArea | cloudflare/src/routes/areas.js:20-33 | found exactly when the id exists, and then it is that area |
| Areas.GetAreaSpec | cloudflare/src/routes/areas.js:29-31 | the area's tables are exactly the tables of that area, sorted by number |
| Accounts.HashPasswordParts | cloudflare/src/routes/auth.js:6-14 | a stored hash splits on `$` into the marker `cf`, the salt and the hex digest of salt plus password |
| Accounts.HashThenCompare | cloudflare/src/routes/auth.js:6-47 | checking a password against a fresh hash accepts exactly the attempts with the same digest, so the password itself is always accepted |
| Accounts.PrototypeNameUnlocksBcryptAccount | cloudflare/src/routes/auth.js:24-33 | as written, "constructor" and "toString" open any bcrypt-hashed account; the intended check refuses them |
| Accounts.AsWrittenAgreesElsewhere | cloudflare/src/routes/auth.js:16-50 | for every other password the check as written and the intended one agree |
| Accounts.IntendedBcryptCheck | cloudflare/src/routes/auth.js:18-35 | the intended check opens a seeded bcrypt account with the seeded password and nothing else |
| Accounts.UnknownAndWrongLookAlike | backend/src/routes/auth.js:26-40 | an unknown e-mail and a wrong password get the same status and message |
| Accounts.ViewOf | backend/src/routes/auth.js:48-55 | the user returned carries the id, name, e-mail and role and never the password hash |
| Accounts.Login | backend/src/routes/auth.js:13-56 | missing credentials and an unknown e-mail are refused exactly in their cases; a refusal as deactivated or for a wrong password names an account with that e-mail in that state; a session is for an active user with that e-mail whose password matched |
| Accounts.NewUser | backend/src/routes/auth.js:102-107 | a new user has the trimmed name, the normalised e-mail, the hash of the password, the given role or `garcom`, and is active |
| Accounts.Register | backend/src/routes/auth.js:81-109 | only an admin may register; missing fields, an unknown role and a used e-mail are refused, each exactly in its case; on success exactly one user is added |
| Accounts.InsertUser | backend/src/routes/auth.js:102-107 | the new user gets a fresh id and nothing else changes |
| Accounts.Me | backend/src/routes/auth.js:63-74 | the caller's own record is returned exactly when it exists and is active |
| Accounts.StoredAtivo | cloudflare/src/routes/auth.js:178 | the `ativo` column an update writes: the value sent on Express, `ativo ? 1 : 0` on Workers, so a null becomes false there |
| Accounts.PatchUser | backend/src/routes/auth.js:137-145 | each field sent replaces its column, after trimming the name and normalising the e-mail; a new password is hashed; fields left out are kept; an `ativo` sent as null is stored as NULL on Express and as 0 (false) on Workers |
| Accounts.EmptyPatchIsIdentity | backend/src/routes/auth.js:147-149 | a patch with nothing to update leaves the user as it was |
| Accounts.UpdateUser | backend/src/routes/auth.js:128-162 | only an admin may update; nothing to update (every field left out; a null `ativo` counts as sent) is 400 and an unknown user 404, each exactly in its case; on success only that user changes |
| Accounts.NullAtivoUpdates | backend/src/routes/auth.js:140 | a lone `ativo` sent as null is an update: on Express it stores NULL, on Workers (cloudflare/src/routes/auth.js:178) it stores false |
| Accounts.RegisterThenLogin | backend/src/routes/auth.js:13-109 | a user an admin registers with a new e-mail can then log in with that password under any spelling of the e-mail that normalises alike |
| Validators.ToNumber | frontend/src/utils/validators.js:31 | `Number(value)`: a missing value is not a number, null and the empty text are 0, a number is itself |
| Validators.ParseWhole | frontend/src/utils/validators.js:31 | a run of digits reads as its decimal value |
| Validators.ParseFraction | frontend/src/utils/validators.js:31 | digits, a point and digits read as the whole part plus the fraction |
| Validators.SignedNumeral | frontend/src/utils/validators.js:31 | a leading minus sign negates the number that follows |
| Validators.TrimRendered | frontend/src/utils/validators.js:3 | the text of an integer has no surrounding blanks |
| Validators.NumberOfString | frontend/src/utils/validators.js:3 | an integer turned into text and read back is the same number |
| Validators.RequiredSpec | frontend/src/utils/validators.js:2-7 | `required` fails exactly on a missing value, null, or text that is empty or all blanks; a number always passes |
| Validators.FalsyPassesShapeRules | frontend/src/utils/validators.js:9-28 | the length and e-mail rules let every falsy value through |
| Validators.BlankPassesNumericRules | frontend/src/utils/validators.js:30-49 | `numeric`, `min` and `max` let the empty text, null and a missing value through, and `min` and `max` also pass anything that is not a number |
| Validators.NotANumberFails | frontend/src/utils/validators.js:51-65 | `positivePrice` and `minQuantity` refuse anything that is not a number |
| Validators.FirstErrorSpec | frontend/src/utils/validators.js:72-78 | there is no error exactly when every rule passes; otherwise the error is that of the first rule that fails |
| Validators.Validate | frontend/src/utils/validators.js:72-78 | the loop over the rules returns the first error, as specified above |
| Validators.EmptyMessageIsSkipped | frontend/src/utils/validators.js:75 | a rule whose message is the empty text fails but `validate` does not report it, since `''` is falsy |
| Validators.RequiredExamples | frontend/src/__tests__/validators.test.js:4-35 | the `required` cases of the test suite |
| Validators.LengthExamples | frontend/src/__tests__/validators.test.js:37-71 | the `minLength` and `maxLength` cases, including the default message |
| Validators.EmailExamples | frontend/src/__tests__/validators.test.js:73-91 | the e-mail cases without `@`, without a domain and empty |
| Validators.AddressExample | frontend/src/__tests__/validators.test.js:84-86 | `user@example.com` is a valid address |
| Validators.ParseExamples | frontend/src/__tests__/validators.test.js:93-111 | `Number` of `abc`, `42`, `3.14` and `25.90` |
| Validators.NumericExamples | frontend/src/__tests__/validators.test.js:93-111 | the `numeric` cases of the test suite |
| Validators.BoundExamples | frontend/src/__tests__/validators.test.js:113-139 | the `min` and `max` cases, including the default message |
| Validators.PriceAndQuantityExamples | frontend/src/__tests__/validators.test.js:141-175 | the `positivePrice` and `minQuantity` cases |
| Validators.ValidateExamples | frontend/src/__tests__/validators.test.js:177-200 | `validate` returns the first failing rule's message |
| Validators.ValidAddressPasses | frontend/src/__tests__/validators.test.js:186-192 | a valid address passes `required` and `email` together |
| Cashier.OfferedAreAccepted | frontend/src/pages/Caixa.jsx:18-23 | every method the screen offers is one the server accepts; the server also accepts `voucher`, which the screen does not offer |
| Cashier.Change | frontend/src/pages/Caixa.jsx:184-189 | the change is never negative, is given only for cash when more is received than paid, and then makes up the difference exactly |
| Cashier.UnsignedFixed2RoundTrip | frontend/src/pages/Caixa.jsx:178 | an amount in cents written with `toFixed(2)` and read back with `parseFloat` is that amount |
| Cashier.Fixed2RoundTrip | frontend/src/pages/Caixa.jsx:178 | the same holds for a negative amount, whose text carries a minus sign |
| Cashier.AmountSumAppend | frontend/src/pages/Caixa.jsx:174-176 | summing the payments of two lists is summing each list |
| Cashier.OwnPaymentsSum | frontend/src/pages/Caixa.jsx:193-196 | the sum the screen makes of an order's payments is the server's paid total for that order |
| Cashier.RemainingMatchesServer | frontend/src/pages/Caixa.jsx:191-197 | the remaining amount the screen shows is the order's total minus what the server counts as paid |
| Cashier.ValidateAmount | frontend/src/pages/Caixa.jsx:200-214 | an amount passes exactly when it is a number above zero and at most the remaining amount; a missing or non-positive one is refused first, and an excess names the remaining amount |
| Cashier.AmountMessage | frontend/src/pages/Caixa.jsx:205-209 | each refusal has a message that is not empty |
| Cashier.ClientCheckImpliesServerAccepts | backend/src/routes/pagamentos.js:117-155 | a payment the screen accepts for an offered method on an open order is one the server accepts too |
| Cashier.ServerToleratesOneCentMore | backend/src/routes/pagamentos.js:148-155 | one cent over the remaining amount is refused by the screen and accepted by the server |
| Cashier.PrefilledAmountSettles | frontend/src/pages/Caixa.jsx:169-182 | the amount the screen fills in on selecting an order passes its own check and, once paid, completes the order |
| Cashier.CashierScreen.constructor | frontend/src/pages/Caixa.jsx:88-96 | the screen opens with no order, no method, empty amounts and no error |
| Cashier.CashierScreen.Select | frontend/src/pages/Caixa.jsx:169-182 | selecting an order fills in the remaining amount and clears the method, the received amount and the error |
| Cashier.CashierScreen.ChangeAmount | frontend/src/pages/Caixa.jsx:216-223 | typing an amount shows an error exactly when it fails the check, with that refusal's message, and clearing it clears the error |
| Cashier.CashierScreen.Pay | frontend/src/pages/Caixa.jsx:225-238 | without a method or an amount nothing happens; otherwise the payment is sent exactly when the amount passes, with the order, method, amount and change, and an amount that fails shows its message |
| Cashier.CashierScreen.Answered | frontend/src/pages/Caixa.jsx:240-271 | a payment that completes the order asks to close exactly the selected order and clears the screen; a partial one asks nothing and reselects the same order, reloaded with its new remaining amount |
| Cashier.PayThenClose | frontend/src/pages/Caixa.jsx:233-243 | the close request follows exactly the payments reported as completing the order, and then always succeeds: the order becomes `pago` and the database stays valid |
| PagedList.CeilDiv | frontend/src/hooks/usePagination.js:19 | `Math.ceil(n / d)` is the least number of pages of `d` rows that hold `n` rows |
| PagedList.CeilDivBounds | frontend/src/hooks/usePagination.js:19 | the integer form `(n + d - 1) / d` meets the same bounds |
| PagedList.ShapesAgree | frontend/src/hooks/usePagination.js:16-17 | the rows are taken from `data`, `rows` or `items`, whichever is sent, and are empty when none is |
| PagedList.PageCountCovers | frontend/src/hooks/usePagination.js:18-19 | without a page count from the server, the pages computed are just enough to hold the total; a missing total gives no pages |
| PagedList.Pager.constructor | frontend/src/hooks/usePagination.js:3-9 | the list starts on page 1, empty, with the given page size, loading |
| PagedList.Pager.GoToPage | frontend/src/hooks/usePagination.js:37-39 | a page in range is shown as asked; one below 1 becomes 1 and one past the end becomes the last page |
| PagedList.Pager.NextPage | frontend/src/hooks/usePagination.js:41-43 | one page on, but never past the last page |
| PagedList.Pager.PrevPage | frontend/src/hooks/usePagination.js:45-47 | one page back, but never below 1 |
| PagedList.Pager.StartFetch | frontend/src/hooks/usePagination.js:13 | a fetch marks the list as loading |
| PagedList.Pager.Loaded | frontend/src/hooks/usePagination.js:17-23 | an answer sets the rows, the total and the page count it implies, and ends loading |
| PagedList.Pager.Failed | frontend/src/hooks/usePagination.js:24-28 | a failed fetch empties the rows and ends loading |
| Pagination.PageNumbers | frontend/src/components/Pagination.jsx:7-22 | the window is up to five consecutive pages inside the range, holds the current page, starts at 1 near the start, ends at the last page near the end and is centred on the current page elsewhere |
| Pagination.WindowButtons | frontend/src/components/Pagination.jsx:51-59 | one button per page of the window, highlighted exactly for the current page |
| Pagination.Head | frontend/src/components/Pagination.jsx:37-49 | a window after page 1 is preceded by a button for page 1, and by a gap too when it starts after page 2 |
| Pagination.Tail | frontend/src/components/Pagination.jsx:61-73 | a window before the last page is followed by a button for it, and by a gap first when it ends before the page before last |
| Pagination.RenderEnds | frontend/src/components/Pagination.jsx:37-73 | the bar always starts with page 1 and ends with the last page |
| Pagination.RenderAdjacent | frontend/src/components/Pagination.jsx:37-73 | two buttons side by side are consecutive pages |
| Pagination.RenderGaps | frontend/src/components/Pagination.jsx:45-47 | a gap always sits between two buttons and stands for at least one page left out |
| Pagination.RenderHighlight | frontend/src/components/Pagination.jsx:55 | a highlighted button is the current page |
| Pagination.RenderShowsPage | frontend/src/components/Pagination.jsx:51-59 | the current page, when in the window, is shown highlighted |
| Pagination.Pagination | frontend/src/components/Pagination.jsx:3-85 | no bar for one page or fewer; otherwise it runs from page 1 to the last page, shows the current page highlighted and nothing else highlighted, and disables the arrows exactly at the ends |
| RouteGuard.Guard | frontend/src/components/ProtectedRoute.jsx:4-27 | a spinner exactly while the session loads, the login page exactly when signed out, and the page itself exactly when no role is required or the user has one of them |
| RouteGuard.GuardMatchesRoleCheck | frontend/src/components/ProtectedRoute.jsx:21-24 | for a signed-in user, the page is shown exactly when the server's role check would let the user through |
| RouteGuard.SignedOutGoesToLogin | frontend/src/components/ProtectedRoute.jsx:16-19 | without a user or without a token the guard sends to the login page, whatever roles are asked for |
| StockView.CategoryName | backend/src/routes/estoque.js:14-16 | the left join yields a category name exactly when the product has a category that exists |
| StockView.ReceivedFixed | backend/src/routes/estoque.js:11-18 | a row that also carried `controle_estoque` and `categoria_nome` would show the category name and count as tracked exactly when it has a stock figure |
| StockView.RankOrder | frontend/src/pages/Estoque.jsx:206 | the sort order of the statuses is critical, low, warning, ok, untracked, and no two statuses share a place |
| StockView.WarningThreshold | frontend/src/pages/Estoque.jsx:37 | `qtd <= min * 1.5` is `2 * qtd <= 3 * min` in integers |
| StockView.LevelBands | frontend/src/pages/Estoque.jsx:31-39 | a tracked product is critical at 0 or less, low up to the minimum, warning up to half as much again, and ok above that |
| StockView.LevelMonotone | frontend/src/pages/Estoque.jsx:31-39 | more stock or a lower minimum never gives a more urgent status |
| StockView.LabelsDistinct | frontend/src/pages/Estoque.jsx:41-49 | each status has its own badge label |
| StockView.LowStockSpec | frontend/src/pages/Estoque.jsx:167-172 | the banner lists exactly the tracked products at or below their minimum, which are the critical and low ones when the minimum is not negative |
| StockView.LocaleCompare | frontend/src/pages/Estoque.jsx:200 | the name comparison is zero exactly on equal names and otherwise agrees with text order |
| StockView.LocaleCompareAntisym | frontend/src/pages/Estoque.jsx:200 | swapping the names negates the comparison |
| StockView.CompareSpec | frontend/src/pages/Estoque.jsx:194-213 | swapping the rows negates the comparison, descending is ascending with the rows swapped, by status it follows the status order, by quantity the quantities |
| StockView.NameLe | frontend/src/pages/Estoque.jsx:197-200 | sorting by name compares the lower-cased names, reversed when descending |
| StockView.CompareTotal | frontend/src/pages/Estoque.jsx:194-213 | every field and direction gives a total preorder |
| StockView.DisplayedSpec | frontend/src/pages/Estoque.jsx:175-213 | the table holds exactly the rows that pass the search and the low-stock filter, as a permutation of them, in the chosen order |
| StockView.ToggleRequest | frontend/src/pages/Estoque.jsx:232-237 | the toggle asks to turn tracking on exactly when the row is not tracked |
| StockView.ReceivedRowsUncontrolled | frontend/src/pages/Estoque.jsx:31-39 | as the servers send rows, every row shows as untracked with adjusting disabled, its toggle asks to turn tracking on, the banner is empty and the low-stock filter shows nothing |
| StockView.ReceivedAll | backend/src/routes/estoque.js:11-37 | the screen receives one row per product row, in order |
| StockView.ReceivedAllFixed | backend/src/routes/estoque.js:11-37 | the same with the two missing columns added |
| StockView.LowNone | frontend/src/pages/Estoque.jsx:167-192 | with the rows as sent, no product is ever listed as low |
| StockView.FixedRowsShowStock | frontend/src/pages/Estoque.jsx:31-39 | with the missing column sent, a tracked product shows its level, can be adjusted, is in the banner exactly when the server's alert ranking puts it first, and its toggle turns tracking off |
| StockView.CategorySearchMisses | frontend/src/pages/Estoque.jsx:182 | as written, a search for the category name misses a product whose name and code do not contain it; with the column renamed it finds it |
| StockView.CategorySearchExample | frontend/src/pages/Estoque.jsx:175-192 | a product "Agua" in category "Bebidas" is not found by the search "bebidas" as written, and is found once the column is renamed |
| StockView.FixedSearchFindsCategory | frontend/src/pages/Estoque.jsx:182 | with the column renamed, a search for any part of the category name finds the product |
| StockView.StockPage.constructor | frontend/src/pages/Estoque.jsx:139-147 | the page starts empty, with no search, no low-stock filter, sorted by name ascending |
| StockView.StockPage.Loaded | frontend/src/pages/Estoque.jsx:149-160 | a loaded list replaces the rows |
| StockView.StockPage.HandleSort | frontend/src/pages/Estoque.jsx:215-222 | clicking the sorted column flips the direction; clicking another sorts by it ascending |
| Kitchen.OrderIdsSpec | backend/src/routes/pedidos.js:95-117 | the orders on the kitchen screen are exactly the orders of the rows, each once |
| Kitchen.ItemsForSpec | backend/src/routes/pedidos.js:106-114 | an order's items are exactly the items of its rows |
| Kitchen.ItemsForCount | backend/src/routes/pedidos.js:106-114 | an order has one item per row of that order, and none when it has no rows |
| Kitchen.FirstRowSpec | backend/src/routes/pedidos.js:97-105 | an order's table and type are taken from its first row |
| Kitchen.TotalItemsAppend | frontend/src/pages/KDS.jsx:213 | the item count of the screen adds up over the orders |
| Kitchen.TotalItemsUpdate | frontend/src/pages/KDS.jsx:213 | replacing one order changes the count by the difference in its items |
| Kitchen.GroupKnown | backend/src/routes/pedidos.js:106-114 | a row of an order already seen adds its item to that order |
| Kitchen.GroupNew | backend/src/routes/pedidos.js:97-105 | a row of a new order starts a new group at the end |
| Kitchen.AddRow | backend/src/routes/pedidos.js:96-115 | each row keeps the grouping consistent and adds one item |
| Kitchen.GroupOrders | backend/src/routes/pedidos.js:95-117 | the loop groups the rows by order in order of first appearance, with every row's item in its order, so the item count is the row count |
| Kitchen.MaxWait | frontend/src/pages/KDS.jsx:70 | an order's wait is its longest item wait |
| Kitchen.OrderUrgentSpec | frontend/src/pages/KDS.jsx:9 | an order is urgent exactly when some item has waited more than 20 minutes, and then that item is urgent too |
| Kitchen.WithoutItem | frontend/src/pages/KDS.jsx:179-181 | removing an item touches only that order's items and keeps every order's id, table and type |
| Kitchen.MarkReadyItem | frontend/src/pages/KDS.jsx:177-183 | after an item is ready, no order on screen is empty and the item is gone from its order |
| Kitchen.MarkReadyOthers | frontend/src/pages/KDS.jsx:177-183 | every other order with items stays on screen, and nothing new appears |
| Kitchen.SetItemStatus | frontend/src/pages/KDS.jsx:186-193 | any other status change sets that one item's status and leaves everything else as it was |
| Kitchen.WithStatus | frontend/src/pages/KDS.jsx:190 | the status is set on the matching items of an order and on nothing else |
| Kitchen.SetItemStatusKeepsItems | frontend/src/pages/KDS.jsx:186-193 | a status change keeps the item count |
| Kitchen.CountersCoverAll | frontend/src/pages/KDS.jsx:213-221 | when every item is pending or in preparation, the two counters add up to the total |
| Kitchen.WherePartition | frontend/src/pages/KDS.jsx:214-221 | two filters that never agree on an element split a list between them |
| Kitchen.KitchenScreen.constructor | frontend/src/pages/KDS.jsx:121-123 | the screen starts empty, loading, with nothing being updated |
| Kitchen.KitchenScreen.Loaded | frontend/src/pages/KDS.jsx:129-138 | a successful load replaces the orders, a failed one keeps them, and either way loading ends |
| Kitchen.KitchenScreen.BeginStatusChange | frontend/src/pages/KDS.jsx:167-171 | a request goes out exactly when the item is not already being updated, and the item is then marked as being updated |
| Kitchen.KitchenScreen.FinishStatusChange | frontend/src/pages/KDS.jsx:173-205 | on success a ready item leaves the screen and any other status is set in place; on failure the screen reloads; the item is no longer marked as being updated |
| Pdv.TypedQuantity | frontend/src/pages/PDV.jsx:77-80 | the typed quantity is at least 1; a number of 1 or more is kept and anything else becomes 1 |
| Pdv.TruncateNote | frontend/src/pages/PDV.jsx:134 | the note kept is the first 200 characters of what was typed |
| Pdv.TruncateNoteIdempotent | frontend/src/pages/PDV.jsx:134 | a note within the limit is kept whole, so cutting twice is cutting once |
| Pdv.QuantityDialog.constructor | frontend/src/pages/PDV.jsx:74-75 | the dialog opens with quantity 1 and an empty note |
| Pdv.QuantityDialog.TypeQuantity | frontend/src/pages/PDV.jsx:77-80 | typing a quantity stores the sanitised value, so the quantity stays at least 1 |
| Pdv.QuantityDialog.Decrement | frontend/src/pages/PDV.jsx:103 | minus lowers the quantity by one but never below 1 |
| Pdv.QuantityDialog.Increment | frontend/src/pages/PDV.jsx:116 | plus raises the quantity by one |
| Pdv.QuantityDialog.TypeNote | frontend/src/pages/PDV.jsx:134 | the note is cut to 200 characters |
| Pdv.QuantityDialog.Confirm | frontend/src/pages/PDV.jsx:149-150 | the dialog submits the quantity shown, which is at least 1, and the note, which is within the limit |
| Pdv.UpdateQuantity | frontend/src/pages/PDV.jsx:301-321 | a new quantity of 0 or less only asks to remove and changes nothing; an unknown item changes nothing; otherwise the item is deleted and added again with the new quantity, the same product and note and a pending status, and when the add fails the item stays deleted; in both cases the new product table is the old one credited with the old quantity and, when the add succeeds, debited with the new one, and the totals are recomputed from the final items |
| Pdv.QuantityChangeStock | frontend/src/pages/PDV.jsx:301-321 | when the row holds the quantity shown, the delete and re-add move the product's tracked stock by exactly minus the change and leave every other product as it was |
| Pdv.FindSection | frontend/src/pages/PDV.jsx:333-334 | the section found has the selected id; none is found exactly when no section has it |
| Pdv.SearchHitsSpec | frontend/src/pages/PDV.jsx:325-330 | a search hit is exactly a product some section lists whose name contains the term, ignoring case |
| Pdv.SearchOverMenu | frontend/src/pages/PDV.jsx:324-335 | over the menu the server sends, a search shows exactly the active products of active categories whose name contains the term, whatever category is selected |
| Pdv.BrowseBySection | frontend/src/pages/PDV.jsx:333-334 | without a search the grid is the first section with the selected id, or empty when there is none |

## Left out

- HTTP and Worker plumbing are not modelled: routers, `worker.js` dispatch, CORS, body and query parsing, and the front end's fetch layer. Each handler is one method over the database. The role gates that the Express app puts in front of whole routers (`/api/estoque` behind the managers' gate, backend/src/app.js:118) are modelled as the first check of each handler (`Stock.StockGate`).
- The Workers stock handlers (cloudflare/src/routes/estoque.js) are modelled as written, with no role check. The Workers dispatcher in `worker.js` does not route `/estoque` to them, so on Workers a stock request answers 404; that dispatch is not modelled.
- Concurrency is not modelled: the row locks (`FOR UPDATE`), transactions, and the races of the Workers handlers. Each handler is one atomic step.
- The Redis cache, the rate limiter and the Socket.IO broadcasts are side effects outside the data. They are not modelled.
- Reports (`relatorios.js`) and the payments summary (`/resumo`) are SQL aggregation and are not modelled. The same goes for SQL `LIMIT`/`OFFSET` paging of the list routes.
- Cryptography is a parameter of the model, not computed:
  - bcrypt, SHA-256 and the HMAC signature;
  - `atob`/`btoa` and JSON parsing;
  - the random salt and the clock (`NOW()`, `Date.now`).
- Kitchen waiting times (`espera`) are taken as given. They are computed from the clock, and so are `hora` and `closed_at`.
- `recalcular_pedido` is not part of this model: the PostgreSQL function is not among the sources. Totals are recomputed as the Workers helper `recalcularPedido` does, on both servers.
- Money is modelled as integer cents. Floating-point rounding of `parseFloat`/`toFixed` is not modelled. `Cashier.UnsignedFixed2RoundTrip` shows that cents survive the round trip through text.
- Numbers in the validators are modelled as follows:
  - `Number(text)` accepts optional blanks, an optional minus sign, and decimal digits with at most one point.
  - A leading `+` is accepted like a leading minus sign, without negating.
  - Hexadecimal, exponent and `Infinity` are not modelled.
  - Number values (as opposed to text) are integers.
- `parseInt` and `parseFloat` take an already-parsed value as a parameter. Their prefix parsing of text is not modelled.
- Text handling is simplified in three ways:
  - String lengths count characters, not UTF-16 code units.
  - `toLowerCase` and the case-insensitive match (`ILIKE`, `LIKE`) fold ASCII letters only. This is exact for SQLite's `LIKE`; PostgreSQL's `ILIKE` also folds other letters, which the model does not.
  - `trim` removes JavaScript's white space and line terminators (including U+00A0, U+2000 to U+200A and U+FEFF), listed character by character.
- `localeCompare` is modelled as code-point order.
- Table-number ordering, area-name ordering and the other `ORDER BY` clauses are modelled with code-point order on text. Collation is not modelled. Where the order leaves rows tied (for example two rows of the same table in the floor list), the model fixes one order among the tied rows, while the databases promise none.
- The floor list's `pedido_inicio` column (the active order's creation time) is not modelled, because it comes from the clock.
- The rows of the kitchen screen (`Kitchen` module) are taken as given. The query of GET /api/pedidos/cozinha that selects them (backend/src/routes/pedidos.js:70-92) is not modelled: it keeps orders `aberto` or `producao` and items `pendente` or `preparando`, and orders the rows by item creation time, which comes from the clock.
- Foreign-key constraints are not part of this model, because the schema is not among the sources:
  - an item may refer to a product that no longer exists;
  - an update of a missing table row changes nothing.
- Table transfer is not part of this model: the route it calls is not among the sources.
- Printing, alerts and confirmation dialogs are left out. For example, the order-entry screen asks for confirmation before removing an item; the model reaches the removal only through `Pdv.UpdateQuantity`'s `ConfirmRemoval` outcome.
- Form setters, debounce timers and polling intervals are left out.
- `Kitchen.KitchenScreen.BeginStatusChange`: models the in-flight check against the current set. React's closure over a stale `updatingItems` between renders is not modelled.
- `PagedList.Pager.constructor`: requires a positive page size. The hook with a page size of 0 or less (a division by zero in `Math.ceil`) is not modelled.
- `Middleware.VerifyJwt`: the signature check and the payload decoding are parameters. The model states the three-part structure and the expiry rule.
- UI-only pages, `AuthContext` storage, the seed script and the tests are not modelled. Some tests appear as example lemmas, each cited in the table above.

## Findings

| source | as written | input that shows it | evidently intended | confidence | as-written member | corrected member |
|---|---|---|---|---|---|---|
| backend/src/routes/estoque.js:11-18 | both stock list routes select no `controle_estoque` column, and the stock screen classifies each row by `produto.controle_estoque` (frontend/src/pages/Estoque.jsx:31-39) | a product with stock 0 and minimum 5: the screen shows "Sem controle" instead of "Zerado", leaves it out of the low-stock banner, disables adjusting it, and its toggle asks to turn tracking on | rows carry whether stock is tracked (a stock figure is present), so the screen shows the level | not executed | StockView.ReceivedRowsUncontrolled | StockView.FixedRowsShowStock |
| frontend/src/pages/Estoque.jsx:182 | the search reads `categoria_nome`, but the stock list sends the category name as `categoria` | product "Agua" in category "Bebidas", search "bebidas": not found | a search matches the category name too | not executed | StockView.CategorySearchExample | StockView.FixedSearchFindsCategory |
| cloudflare/src/routes/auth.js:24-33 | the seeded-password lookup `knownPasswords[password]` also finds names inherited from `Object.prototype` | password "constructor" for an account with a bcrypt hash: accepted | a bcrypt-hashed seeded account opens only with its seeded password | not executed | Accounts.PrototypeNameUnlocksBcryptAccount | Accounts.IntendedBcryptCheck |
| backend/src/routes/pedidos.js:326-336 | once no item of the order is pending, the order is set to `pronto` whatever its status (likewise cloudflare/src/routes/pedidos.js:241-247) | table 5 with order 1 `cancelado` and a new order 2 `aberto`; an item status change on order 1 leaves none of its items pending: order 1 becomes `pronto`, so table 5 has two active orders and a paid or cancelled order is reopened | only an order that is still active moves to `pronto` | not executed | Orders.ForcedReadyCanBreakOneActive | Orders.IntendedReadyKeepsOneActive |
