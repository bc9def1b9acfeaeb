/** The Customer entity (models/customer.js): normalising setters, the derived
    full name, the finders over the `customers` table and `save`. */
module Customers {
  import opened Wrappers
  import opened Text
  import opened Store
  import opened Sorting
  import Sql
  import Reservations

  /** A customer as held in memory. `notes` is always a string; `phone` is
      `null` (None) or a non-empty string. */
  datatype Customer = Customer(
    id: Option<int>,
    firstName: string,
    middleName: string,
    lastName: string,
    phone: Option<string>,
    notes: string)

  /** The object literal handed to the constructor (a form or a row). */
  datatype CustomerInput = CustomerInput(
    id: Option<int>,
    firstName: string,
    middleName: Option<string>,
    lastName: string,
    phone: Option<string>,
    notes: Option<string>)

  /** `LIMIT 10` of the top-customers query. */
  const TopLimit := 10

  /** The invariant the phone setter keeps: never the empty string. */
  predicate Normalised(c: Customer) {
    c.phone != Some("")
  }

  /** The `notes` setter: falsy input becomes `''`, anything else is kept. */
  function SetNotes(c: Customer, v: Option<string>): (c': Customer)
    ensures c'.notes == "" <==> IsFalsy(v)
    ensures !IsFalsy(v) ==> Some(c'.notes) == v
    ensures c'.(notes := c.notes) == c
  {
    c.(notes := OrEmpty(v))
  }

  /** The `phone` setter: falsy input becomes `null`, anything else is kept. */
  function SetPhone(c: Customer, v: Option<string>): (c': Customer)
    ensures c'.phone.None? <==> IsFalsy(v)
    ensures c'.phone.Some? ==> c'.phone == v
    ensures Normalised(c')
    ensures c'.(phone := c.phone) == c
  {
    c.(phone := OrNull(v))
  }

  /** The constructor: `middleName || ''`, then the phone and notes setters. */
  function New(input: CustomerInput): (c: Customer)
    ensures c.id == input.id && c.firstName == input.firstName && c.lastName == input.lastName
    ensures c.middleName == "" <==> IsFalsy(input.middleName)
    ensures !IsFalsy(input.middleName) ==> Some(c.middleName) == input.middleName
    ensures c.phone.None? <==> IsFalsy(input.phone)
    ensures c.phone.Some? ==> c.phone == input.phone
    ensures c.notes == "" <==> IsFalsy(input.notes)
    ensures !IsFalsy(input.notes) ==> Some(c.notes) == input.notes
    ensures Normalised(c)
  {
    var blank := Customer(input.id, input.firstName, OrEmpty(input.middleName), input.lastName, None, "");
    SetNotes(SetPhone(blank, input.phone), input.notes)
  }

  /** Assigning a normalised customer's own notes or phone back changes nothing. */
  lemma SettersReadBack(c: Customer)
    requires Normalised(c)
    ensures SetNotes(c, Some(c.notes)) == c
    ensures SetPhone(c, c.phone) == c
  {
  }

  /** The `fullName` getter: first, middle and last name, each followed by one
      space except the last. */
  function FullName(c: Customer): (name: string)
    ensures |name| == |c.firstName| + |c.middleName| + |c.lastName| + 2
    ensures name[..|c.firstName|] == c.firstName
    ensures name[|c.firstName|] == ' '
    ensures name[|c.firstName| + 1..|c.firstName| + 1 + |c.middleName|] == c.middleName
    ensures name[|c.firstName| + 1 + |c.middleName|] == ' '
    ensures name[|c.firstName| + |c.middleName| + 2..] == c.lastName
  {
    c.firstName + " " + c.middleName + " " + c.lastName
  }

  /** With no middle name the full name has two spaces in a row. */
  lemma FullNameEmptyMiddle(c: Customer)
    requires c.middleName == ""
    ensures FullName(c)[|c.firstName|..|c.firstName| + 2] == "  "
  {
  }

  /** The row `save` writes: `(first_name, last_name, phone, notes)`; there is
      no middle name column. Whatever id it is stored under, it reads back as
      the customer without the middle name. */
  function ToRow(c: Customer): (row: CustomerRow)
    ensures Normalised(c) ==> forall k :: FromRow(k, row) == c.(id := Some(k), middleName := "")
  {
    CustomerRow(c.firstName, c.lastName, c.phone, Some(c.notes))
  }

  /** `new Customer(row)` for a row read back under id `k`; rows have no middle name. */
  function FromRow(k: int, row: CustomerRow): (c: Customer)
    ensures c.id == Some(k) && c.middleName == ""
    ensures c.firstName == row.firstName && c.lastName == row.lastName
    ensures c.phone == OrNull(row.phone) && c.notes == OrEmpty(row.notes)
  {
    New(CustomerInput(Some(k), row.firstName, None, row.lastName, row.phone, row.notes))
  }

  /** Reading back a saved row gives the saved customer, minus its middle name. */
  lemma RowRoundTrip(c: Customer, k: int)
    requires Normalised(c)
    ensures FromRow(k, ToRow(c)) == c.(id := Some(k), middleName := "")
  {
  }

  /** `c` is what constructing the stored row with `c`'s id yields. */
  predicate IsStored(s: Store, c: Customer) {
    c.id.Some? && c.id.value in s.customers && c == FromRow(c.id.value, s.customers[c.id.value])
  }

  function Ids(cs: seq<Customer>): (ids: seq<Option<int>>)
    ensures |ids| == |cs|
    ensures forall i :: 0 <= i < |cs| ==> ids[i] == cs[i].id
  {
    if cs == [] then [] else [cs[0].id] + Ids(cs[1..])
  }

  /** `rows.map(c => new Customer(c))` over the rows with the given ids. */
  function LoadIds(s: Store, ids: seq<int>): (cs: seq<Customer>)
    requires forall k :: k in ids ==> k in s.customers
    ensures |cs| == |ids|
    ensures forall i :: 0 <= i < |ids| ==> cs[i].id == Some(ids[i]) && IsStored(s, cs[i])
  {
    seq(|ids|, i requires 0 <= i < |ids| => FromRow(ids[i], s.customers[ids[i]]))
  }

  /** Which customers the mapping over `ids` produces. */
  lemma LoadedIds(s: Store, ids: seq<int>)
    requires forall k :: k in ids ==> k in s.customers
    ensures forall k :: Some(k) in Ids(LoadIds(s, ids)) <==> k in ids
    ensures forall k :: k in ids ==> FromRow(k, s.customers[k]) in LoadIds(s, ids)
  {
    var cs := LoadIds(s, ids);
    forall k | k in ids ensures Some(k) in Ids(cs) && FromRow(k, s.customers[k]) in cs {
      var i :| 0 <= i < |ids| && ids[i] == k;
      assert Ids(cs)[i] == Some(k);
      assert cs[i] == FromRow(k, s.customers[k]);
    }
  }

  /** `ORDER BY last_name, first_name`. */
  predicate NameLe(a: Customer, b: Customer) {
    StrLt(a.lastName, b.lastName) || (a.lastName == b.lastName && StrLe(a.firstName, b.firstName))
  }

  lemma NameOrder()
    ensures Total(NameLe) && Transitive(NameLe)
  {
    forall a: Customer, b: Customer ensures NameLe(a, b) || NameLe(b, a) {
      StrLeTotal(a.lastName, b.lastName);
      StrLeTotal(a.firstName, b.firstName);
    }
    forall a: Customer, b: Customer, c: Customer | NameLe(a, b) && NameLe(b, c) ensures NameLe(a, c) {
      if a.lastName == b.lastName && b.lastName == c.lastName {
        StrLeTransitive(a.firstName, b.firstName, c.firstName);
      } else {
        StrLeReflexive(b.lastName);
        StrLeTransitive(a.lastName, b.lastName, c.lastName);
        if a.lastName == c.lastName {
          StrLeAntisymmetric(a.lastName, b.lastName);
        }
      }
    }
  }

  function SortByName(cs: seq<Customer>): (r: seq<Customer>)
    ensures SortedBy(r, NameLe)
    ensures multiset(r) == multiset(cs)
  {
    NameOrder();
    SortBy(cs, NameLe)
  }

  /** `all`: every stored customer once, ordered by last name, then first name. */
  function All(s: Store): (r: seq<Customer>)
    ensures SortedBy(r, NameLe)
    ensures |r| == |s.customers|
    ensures forall i :: 0 <= i < |r| ==> IsStored(s, r[i])
    ensures forall k :: k in s.customers ==> FromRow(k, s.customers[k]) in r
  {
    var ids := ScanOrder(s.customers.Keys);
    var r := SortByName(LoadIds(s, ids));
    SortedLoad(s, ids, r);
    r
  }

  lemma SortedLoad(s: Store, ids: seq<int>, r: seq<Customer>)
    requires forall k :: k in ids ==> k in s.customers
    requires multiset(r) == multiset(LoadIds(s, ids))
    ensures |r| == |ids|
    ensures forall i :: 0 <= i < |r| ==> IsStored(s, r[i])
    ensures forall k :: k in ids ==> FromRow(k, s.customers[k]) in r
  {
    var loaded := LoadIds(s, ids);
    SameElements(r, loaded);
    LoadedIds(s, ids);
    forall i | 0 <= i < |r| ensures IsStored(s, r[i]) {
      assert r[i] in loaded;
    }
    assert |r| == |multiset(r)| == |multiset(loaded)| == |loaded|;
  }

  /** `UPPER(first_name) = $1 OR UPPER(last_name) = $1` for an upper-cased `$1`. */
  predicate Matches(row: CustomerRow, key: string) {
    Upper(row.firstName) == key || Upper(row.lastName) == key
  }

  /** The ids matching an upper-cased search key, in scan order. */
  function MatchingIds(s: Store, key: string): (ids: seq<int>)
    ensures Increasing(ids)
    ensures forall k :: k in ids <==> k in s.customers && Matches(s.customers[k], key)
  {
    Where(ScanOrder(s.customers.Keys), k => k in s.customers && Matches(s.customers[k], key))
  }

  lemma LoadedAscending(s: Store, ids: seq<int>)
    requires forall k :: k in ids ==> k in s.customers
    requires Increasing(ids)
    ensures Ascending(Ids(LoadIds(s, ids)))
  {
    var cs := LoadIds(s, ids);
    assert forall i :: 0 <= i < |cs| ==> Ids(cs)[i] == Some(ids[i]);
  }

  lemma LoadedMatches(s: Store, ids: seq<int>, key: string)
    requires forall k :: k in ids ==> k in s.customers && Matches(s.customers[k], key)
    ensures forall i :: 0 <= i < |ids| ==> Matches(s.customers[LoadIds(s, ids)[i].id.value], key)
  {
    assert forall i :: 0 <= i < |ids| ==> ids[i] in ids;
  }

  /** `search`: the stored customers whose first or last name equals `name`
      once both are upper-cased, in scan order. */
  function Search(s: Store, name: string): (r: seq<Customer>)
    ensures forall i :: 0 <= i < |r| ==> IsStored(s, r[i]) && Matches(s.customers[r[i].id.value], Upper(name))
    ensures forall k :: k in s.customers && Matches(s.customers[k], Upper(name)) ==> FromRow(k, s.customers[k]) in r
    ensures Ascending(Ids(r))
  {
    var ids := MatchingIds(s, Upper(name));
    LoadedIds(s, ids);
    LoadedMatches(s, ids, Upper(name));
    LoadedAscending(s, ids);
    LoadIds(s, ids)
  }

  /** Searching is case-insensitive: an upper-cased name finds the same customers. */
  lemma SearchIgnoresCase(s: Store, name: string)
    ensures Search(s, Upper(name)) == Search(s, name)
  {
    UpperIdempotent(name);
  }

  /** `get`: the customer with that id, or a 404 `NotFound` when there is none. */
  function Get(s: Store, id: int): (res: Result<Customer, Error>)
    ensures res.Failure? <==> id !in s.customers
    ensures res.Failure? ==> res.error == NotFound(id) && Status(res.error) == Some(404)
    ensures res.Success? ==> res.value.id == Some(id) && IsStored(s, res.value)
  {
    if id in s.customers then Success(FromRow(id, s.customers[id]))
    else Failure(NotFound(id))
  }

  /** Reservation count of a loaded customer. */
  function CountOf(s: Store, c: Customer): nat {
    if c.id.Some? then ReservationCount(s, c.id.value) else 0
  }

  /** Customers the inner join keeps: stored, with at least one reservation. */
  predicate IsRanked(s: Store, k: int) {
    k in s.customers && ReservationCount(s, k) >= 1
  }

  /** `ORDER BY COUNT(*) DESC`. */
  function ByCount(s: Store): (int, int) -> bool {
    (a: int, b: int) => ReservationCount(s, a) >= ReservationCount(s, b)
  }

  function SortByCount(s: Store, ids: seq<int>): (r: seq<int>)
    ensures SortedBy(r, ByCount(s))
    ensures multiset(r) == multiset(ids)
  {
    assert Total(ByCount(s)) && Transitive(ByCount(s));
    SortBy(ids, ByCount(s))
  }

  function RankedIds(s: Store): (ids: seq<int>)
    ensures Distinct(ids)
    ensures forall k :: k in ids <==> IsRanked(s, k)
  {
    var ids := Where(ScanOrder(s.customers.Keys), k => IsRanked(s, k));
    IncreasingIsDistinct(ids);
    ids
  }

  /** The ids of the top-customers query: at most ten ranked customers, by
      descending reservation count, and no ranked customer left out who has
      more reservations than one that was kept. */
  function TopTenIds(s: Store): (ids: seq<int>)
    ensures |ids| <= TopLimit
    ensures forall i :: 0 <= i < |ids| ==> IsRanked(s, ids[i])
    ensures Distinct(ids)
    ensures SortedBy(ids, ByCount(s))
    ensures forall k :: IsRanked(s, k) && k !in ids ==>
              |ids| == TopLimit && forall i :: 0 <= i < |ids| ==> ReservationCount(s, ids[i]) >= ReservationCount(s, k)
  {
    var sorted := SortByCount(s, RankedIds(s));
    var ids := if |sorted| <= TopLimit then sorted else sorted[..TopLimit];
    TopOfRanking(s, sorted, ids);
    SortedPrefix(sorted, |ids|, ByCount(s));
    assert sorted[..|ids|] == ids;
    ids
  }

  /** The first ten of the ranking are the top ten. */
  lemma TopOfRanking(s: Store, sorted: seq<int>, ids: seq<int>)
    requires sorted == SortByCount(s, RankedIds(s))
    requires ids == if |sorted| <= TopLimit then sorted else sorted[..TopLimit]
    ensures forall i :: 0 <= i < |ids| ==> IsRanked(s, ids[i])
    ensures Distinct(ids)
    ensures forall k :: IsRanked(s, k) && k !in ids ==>
              |ids| == TopLimit && forall i :: 0 <= i < |ids| ==> ReservationCount(s, ids[i]) >= ReservationCount(s, k)
  {
    RankingMembers(s, RankedIds(s), sorted, ids);
    forall k | IsRanked(s, k) && k !in ids
      ensures |ids| == TopLimit && forall i :: 0 <= i < |ids| ==> ReservationCount(s, ids[i]) >= ReservationCount(s, k)
    {
      var j :| 0 <= j < |sorted| && sorted[j] == k;
      LeftOut(s, sorted, ids, j);
    }
  }

  lemma RankingMembers(s: Store, ranked: seq<int>, sorted: seq<int>, ids: seq<int>)
    requires Distinct(ranked) && forall k :: k in ranked <==> IsRanked(s, k)
    requires multiset(sorted) == multiset(ranked)
    requires ids == if |sorted| <= TopLimit then sorted else sorted[..TopLimit]
    ensures forall i :: 0 <= i < |ids| ==> IsRanked(s, ids[i])
    ensures Distinct(ids)
    ensures forall k :: IsRanked(s, k) <==> k in sorted
  {
    DistinctPermutation(ranked, sorted);
    SameElements(ranked, sorted);
    assert forall i :: 0 <= i < |ids| ==> ids[i] in sorted;
  }

  lemma LeftOut(s: Store, sorted: seq<int>, ids: seq<int>, j: int)
    requires SortedBy(sorted, ByCount(s))
    requires ids == if |sorted| <= TopLimit then sorted else sorted[..TopLimit]
    requires 0 <= j < |sorted| && sorted[j] !in ids
    ensures |ids| == TopLimit
    ensures forall i :: 0 <= i < |ids| ==> ReservationCount(s, ids[i]) >= ReservationCount(s, sorted[j])
  {
  }

  lemma LoadedCounts(s: Store, ids: seq<int>)
    requires forall k :: k in ids ==> k in s.customers
    ensures forall i :: 0 <= i < |ids| ==> CountOf(s, LoadIds(s, ids)[i]) == ReservationCount(s, ids[i])
  {
  }

  lemma TopTenRanked(s: Store, ids: seq<int>)
    requires ids == TopTenIds(s)
    ensures forall i :: 0 <= i < |ids| ==> CountOf(s, LoadIds(s, ids)[i]) >= 1
  {
  }

  lemma TopTenOrdered(s: Store, ids: seq<int>)
    requires ids == TopTenIds(s)
    ensures var r := LoadIds(s, ids);
            forall i, j :: 0 <= i < j < |r| ==> r[i].id != r[j].id && CountOf(s, r[i]) >= CountOf(s, r[j])
  {
  }

  lemma TopTenComplete(s: Store, ids: seq<int>)
    requires ids == TopTenIds(s)
    ensures var r := LoadIds(s, ids);
            forall k :: IsRanked(s, k) && Some(k) !in Ids(r) ==>
              |r| == TopLimit && forall i :: 0 <= i < |r| ==> CountOf(s, r[i]) >= ReservationCount(s, k)
  {
  }

  /** `topTen`: at most ten customers that have reservations, by descending
      reservation count, each once; a customer with reservations is left out
      only when ten customers with at least as many were returned. */
  function TopTen(s: Store): (r: seq<Customer>)
    ensures |r| <= TopLimit
    ensures forall i :: 0 <= i < |r| ==> IsStored(s, r[i]) && CountOf(s, r[i]) >= 1
    ensures forall i, j :: 0 <= i < j < |r| ==> r[i].id != r[j].id && CountOf(s, r[i]) >= CountOf(s, r[j])
    ensures forall k :: IsRanked(s, k) && Some(k) !in Ids(r) ==>
              |r| == TopLimit && forall i :: 0 <= i < |r| ==> CountOf(s, r[i]) >= ReservationCount(s, k)
  {
    var ids := TopTenIds(s);
    TopTenRanked(s, ids);
    TopTenOrdered(s, ids);
    TopTenComplete(s, ids);
    LoadIds(s, ids)
  }

  /** `getReservations`: the reservations whose customer id is this customer's. */
  function GetReservations(s: Store, c: Customer): (res: Result<seq<Reservations.Reservation>, Error>)
    ensures WellFormed(s) ==> res.Success?
    ensures res.Success? ==> forall i :: 0 <= i < |res.value| ==>
              && res.value[i].customerId == c.id
              && Reservations.IsStored(s, res.value[i])
              && Reservations.BelongsTo(s.reservations[res.value[i].id.value], c.id)
    ensures res.Success? ==> forall k :: k in s.reservations && Reservations.BelongsTo(s.reservations[k], c.id) ==>
              Some(k) in Reservations.Ids(res.value)
    ensures res.Success? ==> Ascending(Reservations.Ids(res.value))
    ensures c.id.None? ==> res == Success([])
  {
    Reservations.GetReservationsForCustomer(s, c.id)
  }

  /** `save`: an unsaved customer is inserted under the table's next id and
      takes that id; a saved one overwrites the row with its id, if any. */
  function Save(s: Store, c: Customer): (out: (Store, Customer))
    ensures out.0.reservations == s.reservations
    ensures out.1.id.Some?
    ensures out.1.(id := c.id) == c
    ensures c.id.Some? ==> out.1 == c
    ensures c.id.None? ==> && out.1.id == Some(s.nextCustomerId)
                           && (WellFormed(s) ==> s.nextCustomerId !in s.customers)
                           && out.0.customers.Keys == s.customers.Keys + {s.nextCustomerId}
    ensures c.id.Some? ==> out.0.customers.Keys == s.customers.Keys
    ensures out.0.nextReservationId == s.nextReservationId
    ensures c.id.Some? ==> out.0.nextCustomerId == s.nextCustomerId
    ensures c.id.None? ==> out.0.nextCustomerId == s.nextCustomerId + 1
    ensures out.1.id.value in out.0.customers ==> out.0.customers[out.1.id.value] == ToRow(c)
    ensures c.id.Some? && c.id.value !in s.customers ==> out.0 == s
    ensures forall k :: k in s.customers && Some(k) != out.1.id ==>
              k in out.0.customers && out.0.customers[k] == s.customers[k]
    ensures WellFormed(s) ==> WellFormed(out.0)
  {
    match c.id
    case None =>
      var k := s.nextCustomerId;
      (s.(customers := s.customers[k := ToRow(c)], nextCustomerId := k + 1), c.(id := Some(k)))
    case Some(k) =>
      if k in s.customers then (s.(customers := s.customers[k := ToRow(c)]), c)
      else (s, c)
  }

  /** `save` as written: the store rejects its UPDATE statement. */
  function SaveAsWritten(s: Store, c: Customer): (res: Result<(Store, Customer), Error>)
    ensures res.Success? <==> c.id.None?
    ensures res.Success? ==> res.value == Save(s, c)
  {
    var statement := if c.id.None? then Sql.Insert("customers", Sql.CustomerColumns)
                     else Sql.Update("customers", Sql.CustomerColumns, true);
    Sql.InsertAccepted("customers", Sql.CustomerColumns);
    Sql.UpdateAcceptedIff("customers", Sql.CustomerColumns, true);
    if Sql.Accepts(statement) then Success(Save(s, c))
    else Failure(PersistenceFailure("syntax error"))
  }

  /** Saving a new customer and fetching it by the id it was given returns
      the same customer, except that the middle name is not stored. */
  lemma SaveNewThenGet(s: Store, c: Customer)
    requires WellFormed(s) && Normalised(c) && c.id.None?
    ensures Get(Save(s, c).0, Save(s, c).1.id.value) == Success(Save(s, c).1.(middleName := ""))
  {
    RowRoundTrip(c, s.nextCustomerId);
  }

  /** Saving a stored customer and fetching it again returns what was saved,
      except that the middle name is not stored. */
  lemma SaveExistingThenGet(s: Store, c: Customer)
    requires Normalised(c) && c.id.Some? && c.id.value in s.customers
    ensures Get(Save(s, c).0, c.id.value) == Success(c.(middleName := ""))
  {
    RowRoundTrip(c, c.id.value);
  }

  /** A customer entered with an empty phone and empty notes is stored and
      read back with a `null` phone and `''` notes. */
  lemma EmptyPhoneAndNotesRoundTrip(s: Store, first: string, last: string)
    requires WellFormed(s)
    ensures var c := New(CustomerInput(None, first, None, last, Some(""), Some("")));
            var (s', saved) := Save(s, c);
            && Get(s', saved.id.value).Success?
            && Get(s', saved.id.value).value.phone == None
            && Get(s', saved.id.value).value.notes == ""
            && Get(s', saved.id.value).value.firstName == first
            && Get(s', saved.id.value).value.lastName == last
  {
    var c := New(CustomerInput(None, first, None, last, Some(""), Some("")));
    SaveNewThenGet(s, c);
  }
}
