# Lunchly core in Dafny

Lunchly is a small restaurant application. Its core is two entities over a
relational store:

- a **Customer** has a first, middle and last name, a phone number and notes;
- a **Reservation** belongs to a customer and has a party size (`numGuests`),
  a start time (`startAt`) and notes.

Each entity guards its fields with setters. A customer's notes are never
`null`, and an empty phone becomes `null`. A reservation rejects a guest
count below one and any date that is not a valid `Date`, and its customer id
can be set once and never changed. (As written, the guest check lets a
missing count through; see Findings.) The finders read rows from the store and build entities from them:

- `all`, ordered by last name and then first name;
- `search`, a case-insensitive match on first or last name;
- `topTen`, the customers with the most reservations;
- `get`, one customer by id, or a 404;
- `getReservations` / `getReservationsForCustomer`, one customer's reservations.

`save` inserts an unsaved entity, which then takes its new id, or overwrites
the row of a saved one.

The model is purely functional:

- Entities are immutable datatypes, and each setter returns either the
  updated entity or an error. On an error the caller keeps the entity it had.
- The store (`Store.Store`) holds two tables, each a `map<int, Row>`, plus
  the next id each table hands out (a SERIAL column).
- A query returns its rows in ascending id order unless it says
  `ORDER BY`. This is the scan order `Store.ScanOrder`.
- JavaScript falsiness on optional strings is modelled by `Option<string>`:
  `None` or `Some("")` is falsy.
- A `numGuests` value that compares as NaN is `GuestCount.NotANumber`.
- A `startAt` value is either not a `Date` at all, or a `Date` whose time is
  a number or NaN.

Modules:

- `Wrappers`: the `Option` and `Result` types.
- `Text`: falsy defaults, ASCII upper-casing and lexicographic string order.
- `Sorting`: insertion sort over a total preorder.
- `Store`: the tables, their well-formedness, and scan order and filtering.
- `Sql`: the write statements as token sequences, and the parenthesis count
  the store enforces.
- `Reservations` and `Customers`: the two entities.

## Model

| member | source | states |
|---|---|---|
| Customers.New | models/customer.js:9-16 | id and names are kept; a falsy middle name becomes `''`; phone is `null` exactly when the input is falsy and the input otherwise; notes are `''` exactly when the input is falsy and the input otherwise; the phone is never `''` |
| Customers.SetNotes | models/customer.js:25-27 | notes are `''` exactly when the value is falsy; otherwise they are the value; no other field changes |
| Customers.SetPhone | models/customer.js:35-37 | phone is `null` exactly when the value is falsy; otherwise it is the value; it is never `''`; no other field changes |
| Customers.SettersReadBack | models/customer.js:25-41 | assigning a customer's own notes or phone back through the setter leaves the customer unchanged |
| Customers.FullName | models/customer.js:19-21 | the full name is the first, middle and last names separated by single spaces; positions and total length are stated |
| Customers.FullNameEmptyMiddle | models/customer.js:12-20 | without a middle name the full name has two consecutive spaces after the first name |
| Customers.ToRow | models/customer.js:127 | the row `save` writes reads back, under any id, as the customer with that id and no middle name, since the table has no middle name column |
| Customers.FromRow | models/customer.js:55 | `new Customer(row)` for a row read under id `k`: the id is `k`, the names are the row's, the middle name is `''`, a falsy phone becomes `null` and falsy notes become `''` |
| Customers.LoadIds | models/customer.js:70 | mapping rows to customers keeps one customer per row, in order, each carrying its row's id and built from its stored row |
| Customers.RowRoundTrip | models/customer.js:121-129 | building a customer from the row that `save` writes gives back the customer with its new id and no middle name |
| Customers.NameOrder | models/customer.js:53 | the `ORDER BY last_name, first_name` comparison is a total, transitive preorder |
| Customers.All | models/customer.js:45-56 | every stored customer appears, and every result is built from its stored row; the count equals the table size; the result is sorted by last name, then first name |
| Customers.Search | models/customer.js:59-71 | every result is stored and its first or last name upper-cases to the upper-cased search name; every stored customer that matches appears; results are in ascending id order |
| Customers.SearchIgnoresCase | models/customer.js:67-68 | searching for the upper-cased name gives the same result as searching for the name |
| Text.UpperIdempotent | models/customer.js:67-68 | upper-casing twice is upper-casing once |
| Customers.Get | models/customer.js:91-111 | it fails exactly when no customer has that id, and the failure is `NotFound(id)` with status 404; on success the customer carries that id and is the one built from its stored row |
| Store.ReservationCount | models/customer.js:77-80 | the `COUNT(*)` of the join for a customer is at least one exactly when some reservation carries that customer's id, so the inner join keeps exactly those customers |
| Customers.TopTenIds | models/customer.js:77-82 | at most ten ids, each of a stored customer with at least one reservation, without repeats, by non-increasing reservation count; a customer with reservations is left out only when ten are kept and each has at least as many reservations |
| Customers.TopTen | models/customer.js:74-87 | at most ten stored customers, each with at least one reservation, with distinct ids, by non-increasing count; a customer with reservations is left out only when ten customers with at least as many are returned |
| Customers.GetReservations | models/customer.js:115-117 | on a well-formed store it succeeds; every result is a stored reservation whose row and object carry this customer's id; every stored reservation of this customer appears, once, in ascending id order; an unsaved customer gets no reservations |
| Customers.Save | models/customer.js:121-137 | an unsaved customer gets the next id, which was free, and its row is added; a saved customer overwrites the row with its id, or changes nothing when there is no such row; no other row changes; reservations and the reservation counter are untouched; the customer counter advances by one on an insert only; well-formedness is preserved |
| Customers.SaveAsWritten | models/customer.js:130-136 | as written, `save` succeeds exactly for an unsaved customer, and then it agrees with `Save`; every update is rejected |
| Customers.SaveNewThenGet | models/customer.js:121-129 | saving a new customer and getting it by its new id returns the saved customer without its middle name |
| Customers.SaveExistingThenGet | models/customer.js:130-135 | saving a stored customer and getting it again returns what was saved without its middle name |
| Customers.EmptyPhoneAndNotesRoundTrip | models/customer.js:25-37 | a customer entered with an empty phone and empty notes is read back with a `null` phone, `''` notes and the same names |
| Reservations.New | models/reservation.js:10-16 | the setters run in the source's order and the first failure decides the error; with the corrected guest check, construction succeeds exactly when the guest count is a number of at least one and the date is valid; the fields are then kept (notes default to `''`); otherwise the error is the guest message if the count is bad, else the date message |
| Reservations.NewRejectsMissingCount | models/reservation.js:10-24 | for every input with a missing or NaN guest count and a valid date, the guest check as written accepts, but `New` rejects with the guest message |
| Reservations.SetNumGuests | models/reservation.js:19-24 | a count is kept exactly when it is a number of at least one; otherwise "Must have at least one guest."; no other field changes |
| Reservations.NumGuestsAsWritten | models/reservation.js:19-24 | as written, the setter fails exactly for numbers below one, with the guest message; a count of at least one is stored unchanged; a missing or NaN count is accepted and stored as a non-number |
| Reservations.SetStartAt | models/reservation.js:32-35 | a date is kept exactly when it is a `Date` with a non-NaN time; otherwise "Not a valid startAt."; no other field changes |
| Reservations.SetNotes | models/reservation.js:51-53 | notes are `''` exactly when the value is falsy; otherwise they are the value; no other field changes |
| Reservations.SetCustomerId | models/reservation.js:61-65 | the assignment fails exactly when the current id is truthy and differs from the new value, with "Cannot change customer ID"; otherwise the id becomes the value |
| Reservations.CustomerIdWriteOnce | models/reservation.js:59-65 | once the customer id holds a truthy value, assigning anything else fails and assigning the same value changes nothing |
| Reservations.FromRow | models/reservation.js:85 | building from a stored row succeeds exactly when the row has at least one guest, and otherwise fails with the guest message; it keeps the row's id, customer id, guest count and start time, and a NULL or empty note becomes `''` |
| Reservations.ToRow | models/reservation.js:97 | the row `save` writes for a valid reservation reads back, under any id, as that reservation with that id |
| Reservations.RowRoundTrip | models/reservation.js:88-99 | building a reservation from the row that `save` writes gives back the reservation with its new id |
| Reservations.LoadAll | models/reservation.js:85 | mapping rows to reservations succeeds exactly when every row has at least one guest, and otherwise fails with the guest message; on success there is one reservation per row, in order, each built from its stored row |
| Store.Where | models/reservation.js:80-81 | filtering keeps exactly the ids satisfying the condition, in ascending order |
| Reservations.GetReservationsForCustomer | models/reservation.js:73-86 | on a well-formed store it succeeds; every result is stored, its row has the given customer id and so does the reservation; every stored reservation of that customer appears; ids ascend; an unset id matches nothing |
| Reservations.LoneReservation | models/reservation.js:73-86 | a customer with exactly one reservation gets exactly that reservation |
| Reservations.Save | models/reservation.js:88-107 | an unsaved reservation gets the next id, which was free, and its row is added; a saved one overwrites the row with its id, or changes nothing when there is no such row; no other row changes; customers and the customer counter are untouched; the reservation counter advances by one on an insert only; well-formedness is preserved for a valid reservation |
| Reservations.SaveAsWritten | models/reservation.js:100-105 | as written, `save` succeeds exactly for an unsaved reservation, and then it agrees with `Save` |
| Reservations.SaveNewThenList | models/reservation.js:73-99 | saving a new reservation for a customer who had none, then listing that customer's reservations, gives exactly the saved reservation |
| Sql.InsertAccepted | models/customer.js:124-126 | the store accepts the INSERT statements, which have as many `(` as `)` |
| Sql.UpdateAcceptedIff | models/customer.js:132-133 | the store accepts an UPDATE statement exactly when it lacks the stray `)` after the last assignment |

## Left out

- Asynchrony and the database driver: every query is a pure function of the `Store` value. The only persistence failure modelled is the store's rejection of a statement with a syntax error.
- SQL text beyond parentheses: statements are token sequences. The only syntax rule checked is that a statement has as many `(` as `)`; it does not check that each `)` closes an earlier `(`.
- `formattedStartAt` and `prettierStartAt` (models/reservation.js:41-47): date formatting through moment and a relative time against the clock.
- `Date` internals: a date is a millisecond count, or NaN for an Invalid Date.
- The `console.log` in `topTen` (models/customer.js:85): output only.
- Text.Upper: upper-cases ASCII letters only, because the full Unicode case mapping of `toUpperCase` and of the database's `UPPER` is out of scope.
- Customers.All: orders names by code point, not by the database's collation.
- Customers.TopTen: leaves the order among customers with equal counts unstated, because the query does not fix it.
- Store.ScanOrder: a query without `ORDER BY` has no defined row order. The model returns ascending id order, and the ascending-order ensures of `Search` and `GetReservationsForCustomer` describe that choice, not the source.
- Foreign keys, NOT NULL and other table constraints: the store stores any row the entities write.
- String-to-number coercion in comparisons (`"3" < 1`): guest counts are integers or NaN.
- Reservations.New: runs the corrected guest check, so it rejects a missing or NaN guest count that the constructor as written accepts (see Findings and `NewRejectsMissingCount`); `Reservation.numGuests` is an integer and cannot hold the non-number the source would store.
- Customers.New: first and last names are taken as strings; the constructor does not default them.
- The middle name is never written to or read from the table, so it does not survive a save; `RowRoundTrip` and `SaveNewThenGet` state exactly that.

## Findings

| source | as written | input that shows it | evidently intended | confidence | as-written member | corrected member |
|---|---|---|---|---|---|---|
| models/customer.js:132 and models/reservation.js:102 | the UPDATE statements have a `)` after `notes=$4` with no matching `(` | saving any customer or reservation that has an id | update the row with that id | high, not executed | Customers.SaveAsWritten, Reservations.SaveAsWritten, Sql.UpdateAcceptedIff | Customers.Save, Reservations.Save |
| models/reservation.js:19-24 | `val < 1` is false for `undefined` and NaN, so the setter accepts a missing guest count | constructing a reservation with no `numGuests` | reject any count that is not a number of at least one | medium, not executed | Reservations.NumGuestsAsWritten, Reservations.NewRejectsMissingCount | Reservations.SetNumGuests, Reservations.New |
