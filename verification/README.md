# Rental workflow of the movie-rental backend, modelled in Dafny

The backend (`flask-server/app.py`) exposes a Sakila-style rental database
over HTTP. Almost every endpoint is a single read-only query. Two endpoints
carry the rental workflow, and they are what this project models:

- `GET /instock?film_id=…` reports the copies of a film that are on the shelf.
  No availability flag is stored. A copy is available when the inventory holds
  it for that film and no rental of it has a NULL `return_date`. This is an
  anti-join against the open rentals.
- `POST /rentfilm` takes a JSON body with `inventory_id`, `customer_id` and
  `staff_id`. It checks that all three are present, then that the customer
  exists, then that the staff member exists. The Python SQLite driver binds only
  64-bit integers. A customer or staff id outside that range raises during its
  lookup, which runs before the `try`, so Flask answers 500. The handler then
  inserts one rental and one payment:
  - the rental's id is `MAX(rental_id) + 1` and its `return_date` is NULL;
  - the payment's id is `MAX(payment_id) + 1`;
  - the payment's `rental_id` is `MAX(rental_id)` read after the first insert;
  - the payment's amount is the `rental_rate` of the film behind the copy.

The database is a value of `Tables.Db`:

- every table is an immutable sequence of rows, in scan order;
- the customer and staff tables count only through which ids exist, so they
  are sets.

Each handler is a pure function from the database and the request to a
`Http.Reply`, which pairs the response with the committed database after the
call. The two INSERTs of a rent are separate statements, so each reads its own
`CURRENT_DATE` and `CURRENT_TIMESTAMP` from `Tables.Clocks`.

SQL NULL and Python `None` are both `Maybe.Option`. Rental and payment ids
are nullable, because `MAX(id) + 1` over a table with no id is NULL.

Three behaviours of the code are modelled as written:

- **No availability check.** Nothing checks whether a copy is already out
  before it is rented, so one copy can be rented twice.
- **NULL ids on empty tables.** On empty rental and payment tables the first
  rent writes NULL ids. A store keeps them only when the key columns are
  neither NOT NULL nor rowid aliases; see "Left out".
- **Store failures are hidden.** The `return` inside `finally` replaces the 500
  that the `except` branch returns. Once validation passes, the caller always
  receives the confirmation, even when the store rejected the writes. The same
  happens when the inventory id cannot be bound, because that id is first bound
  inside the `try`.

Whether the inserts and the commit succeed depends on the store's schema,
which is not part of this model. That outcome is the parameter
`RentFilm.StoreVerdict`. `Commits` means the rows are stored as written. A
verdict other than `Commits` leaves the committed database unchanged: nothing
was committed, and Flask-SQLAlchemy discards the session's uncommitted work
when the request ends. The code answers with the
confirmation even in that case, and the model follows the code.

Modules:

- `Maybe` defines the option type.
- `Sql` models `MAX` and `+ 1` with their NULL rules, and the 64-bit INTEGER
  range the driver can bind.
- `Decimal` models Python's `str(int)` and the reading of a numeric argument.
- `Tables` defines the rows, the database, the scalar lookups and the key
  constraints.
- `Http` defines the responses.
- `InStock` models `/instock`.
- `RentFilm` models `/rentfilm`.
- `Workflow` holds the properties that connect calls and handlers.

## Model

| member | source | states |
|---|---|---|
| `InStock.HandleInStock` | flask-server/app.py:60-72 | A missing `film_id` gives 400 with no body, and every 400 comes from that case. A given argument gives a stock report whose `count` equals the length of `in_stock`. The report lists exactly the copies of the film that have no open rental. Text that does not read as a number lists nothing. The database is unchanged. |
| `InStock.AvailableIds` | flask-server/app.py:63-64 | The anti-join query returns an id exactly when it is a copy of the film and no rental of it has a NULL `return_date`. |
| `InStock.AppendRows` | flask-server/app.py:65-71 | The body-building loop ends with `count` increased by the number of rows and `in_stock` extended by exactly those rows, in order. |
| `InStock.AvailableIdsDistinct` | flask-server/app.py:63 | When inventory ids are unique, no copy appears twice in the result. |
| `InStock.InStockReportsAvailableCopies` | flask-server/app.py:60-72 | For a well-formed database and any film id sent as decimal text, the report lists each available copy exactly once, and the count matches the list. |
| `Sql.Max` | flask-server/app.py:94 | `MAX` is NULL exactly when the column holds no non-NULL value. Otherwise it is a value of the column and at least every non-NULL value. |
| `Sql.MaxAfterAppendingSucc` | flask-server/app.py:106-109 | After `MAX + 1` is inserted, `MAX` reads back the inserted value. |
| `Tables.FilmOf` | flask-server/app.py:110 | The inner scalar subquery is NULL exactly when no inventory row has the id. Otherwise it returns the film of a row with that id. |
| `Tables.RateOf` | flask-server/app.py:110 | The outer scalar subquery is NULL exactly when the film id is NULL or no film has it. Otherwise it returns that film's `rental_rate`. |
| `Tables.LookupsFollowKeys` | flask-server/app.py:110 | When inventory and film ids are unique, the two subqueries return the film of the one matching copy and that film's rate. |
| `Decimal.StrRoundTrip` | flask-server/app.py:122 | Reading back the decimal text of any integer gives that integer. |
| `Decimal.StrInjective` | flask-server/app.py:122 | Different integers print differently. |
| `RentFilm.PaymentReadsNewRentalId` | flask-server/app.py:94-109 | The payment insert reads `MAX(rental_id)` after the rental insert, and that value is the id the rental insert allocated. |
| `RentFilm.HandleRentFilm` | flask-server/app.py:74-122 | A JSON `null` body or a missing field gives 400 with no body, and every bodiless 400 comes from that case. A customer id outside the 64-bit range gives 500. An in-range unknown customer gives "Invalid Customer ID" even when the staff id is also bad. For a known customer, a staff id outside the 64-bit range gives 500, and an in-range unknown staff id gives "Invalid Staff ID". None of these cases writes a row. Past validation the response is always the 200 confirmation. If the store fails or the inventory id cannot be bound, the database is unchanged. If the store commits, exactly one rental and one payment are appended and the other tables are unchanged. The rental has id `MAX(rental_id)+1`, the given copy, customer and staff, a NULL `return_date`, and the first INSERT's date and timestamp. The payment has id `MAX(payment_id)+1`, the rental's id, the same customer and staff, the amount the rate subquery gives, and the second INSERT's timestamp. |
| `Workflow.RentChargesFilmRate` | flask-server/app.py:110 | In a well-formed database, the new payment's amount is the `rental_rate` of the film behind the rented copy. It is NULL when the copy does not exist. |
| `Workflow.RentAllocatesFreshIds` | flask-server/app.py:94-106 | Each new rental or payment id is greater than every existing id in its table. It is NULL only when that table holds no id. |
| `Workflow.RentPreservesValid` | flask-server/app.py:91-118 | Every rent call keeps the key constraints: rental ids stay unique, payment ids stay unique, and every non-NULL payment `rental_id` names a rental. |
| `Workflow.RentAnswerIgnoresStore` | flask-server/app.py:86-122 | The answer is the same whatever the store does. Past validation it is always 200. It is 500 exactly when the customer id, or for a known customer the staff id, cannot be bound before the `try`. |
| `Workflow.FailedRentReportsSuccess` | flask-server/app.py:115-122 | When the store rejects the writes, or the inventory id cannot be bound, the answer is still 200 and no rental or payment is stored. |
| `Workflow.RentedMessageInjective` | flask-server/app.py:122 | The confirmation text determines both the inventory id and the customer id. |
| `Workflow.RentTakesCopyOutOfStock` | flask-server/app.py:63-98 | After a committed rent, the rented copy is absent from `/instock` for every film id. |
| `Workflow.RentKeepsOtherCopies` | flask-server/app.py:63-102 | A rent call changes the availability of no other copy. |
| `Workflow.RentDoesNotCheckAvailability` | flask-server/app.py:85-98 | Renting a copy that is already out is accepted with 200, leaving two open rentals of that copy. |
| `Workflow.FirstRentGetsNullIds` | flask-server/app.py:94-109 | On empty rental and payment tables, every committed rent writes a rental and a payment with NULL ids and a NULL payment `rental_id`. |

## Left out

- The other endpoints are not modelled: `/customerlist`, `/topfiveactors`, `/topfivefilms`, `/films`, `/filmdetails`, `/actordetails` and `/search`. Each is one read-only query with no application logic.
- Return-film and customer create/edit/delete are not in `app.py`, so they are not part of this model.
- Flask and SQLAlchemy plumbing is not modelled: routing, request parsing, sessions and the `commit` call. A request is its optional fields. A response is `Http.Response`.
- A missing, empty or non-JSON body is not modelled. Flask 2.1 and later reject these in `request.json` before line 76 runs: a 400 error page, or a 415 from Flask 2.3 for a wrong content type. The model's `None` body is a JSON `null` body.
- A JSON body that is not an object is not modelled. On one, `json.get` raises and Flask answers 500 on its own.
- JSON id values are modelled as integers only. Strings or floats sent as ids are not modelled.
- RentFilm.HandleRentFilm: does not model SQLite's `MAX(id) + 1` overflow. At a maximum id of 2^63-1 the sum becomes a REAL, while `Sql.Succ` keeps counting in unbounded integers. Ids from the request are checked against the 64-bit range.
- A store that replaces a NULL key with its own value is not represented. SQLite does this for an INTEGER PRIMARY KEY, which takes a fresh rowid. A NOT NULL key instead rejects the row, which is one of the failing verdicts. `Commits` always means the rows are stored as written.
- `InStock.HandleInStock` does not model SQLite's numeric-affinity conversion in full. The `film_id` query text is read with `Decimal.Parse`, which accepts an optional minus sign followed by digits. Texts such as `+3`, ` 3` or `3.0`, which SQLite may also match to film 3, are treated as matching nothing.
- `InStock.HandleInStock` lists rows in inventory scan order. The query has no `ORDER BY`, so the real row order is the store's choice.
- Rental `inventory_id` is never NULL in the model. An open rental with a NULL `inventory_id` would make `NOT IN` empty every `/instock` result. A NULL in a returned rental is filtered out by the subquery and changes nothing.
- The schema's own constraints (NOT NULL, foreign keys, primary keys) are not modelled. So the model does not decide which inserts the store rejects. That outcome is the `StoreVerdict` parameter.
- Transaction rollback is assumed, not modelled. An uncommitted write is taken as discarded, because Flask-SQLAlchemy's request teardown rolls it back; `app.py` itself never calls `rollback`.
- Concurrent callers are not modelled. Two concurrent `MAX(id) + 1` allocations could collide. The model has one sequential caller.
- `CURRENT_DATE` and `CURRENT_TIMESTAMP` are opaque integer stamps supplied by `Tables.Clock`.
- `rental_rate` is an opaque integer. Its decimal value is never computed with.
- A scalar subquery that matches several rows yields the first row in scan order. Under unique keys, which `Tables.Valid` states, at most one row matches.
