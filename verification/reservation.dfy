/** The Reservation entity (models/reservation.js): validating setters, the
    constructor that runs them, the finder by customer and `save`. */
module Reservations {
  import opened Wrappers
  import opened Text
  import opened Store
  import Sql

  /** A reservation as held in memory. `customerId` may be unset (`undefined`);
      `startAt` is the time of a valid `Date`, in milliseconds. */
  datatype Reservation = Reservation(
    id: Option<int>,
    customerId: Option<int>,
    numGuests: int,
    startAt: int,
    notes: string)

  /** A value assigned to `numGuests`: a number, or a value that compares as
      NaN (`undefined` when the field is absent). */
  datatype GuestCount = NotANumber | Guests(n: int)

  /** A value assigned to `startAt`: something that is not a `Date` at all, or a
      `Date` whose time is a number or NaN (an Invalid Date). */
  datatype DateValue = NotADate | JsDate(time: Option<int>)

  /** The object literal handed to the constructor (a form or a row). */
  datatype ReservationInput = ReservationInput(
    id: Option<int>,
    customerId: Option<int>,
    numGuests: GuestCount,
    startAt: DateValue,
    notes: Option<string>)

  const GuestsMessage := "Must have at least one guest."
  const StartAtMessage := "Not a valid startAt."
  const CustomerIdMessage := "Cannot change customer ID"

  /** The invariant the setters guard: at least one guest. */
  predicate Valid(r: Reservation) {
    r.numGuests >= 1
  }

  predicate IsValidDate(v: DateValue) {
    v.JsDate? && v.time.Some?
  }

  /** A truthy customer id locks the field. */
  predicate Locked(customerId: Option<int>) {
    customerId.Some? && customerId.value != 0
  }

  /** The `numGuests` setter as written: `NaN < 1` is false, so a missing or
      NaN count is accepted and stored as the non-number it is (`None` here).
      The result is the new backing value. */
  function NumGuestsAsWritten(v: GuestCount): (stored: Result<Option<int>, Error>)
    ensures stored.Failure? <==> v.Guests? && v.n < 1
    ensures stored.Failure? ==> stored.error == InvalidArgument(GuestsMessage)
    ensures v.Guests? && v.n >= 1 ==> stored == Success(Some(v.n))
    ensures v == NotANumber ==> stored == Success(None)
  {
    match v
    case NotANumber => Success(None)
    case Guests(n) => if n < 1 then Failure(InvalidArgument(GuestsMessage)) else Success(Some(n))
  }

  /** The `numGuests` setter as intended: only a count of at least one is kept. */
  function SetNumGuests(r: Reservation, v: GuestCount): (res: Result<Reservation, Error>)
    ensures res.Success? <==> v.Guests? && v.n >= 1
    ensures res.Success? ==> Valid(res.value) && res.value.numGuests == v.n
    ensures res.Success? ==> res.value.(numGuests := r.numGuests) == r
    ensures res.Failure? ==> res.error == InvalidArgument(GuestsMessage)
  {
    if v.Guests? && v.n >= 1 then Success(r.(numGuests := v.n))
    else Failure(InvalidArgument(GuestsMessage))
  }

  /** The `startAt` setter: only a `Date` whose time is not NaN is kept. */
  function SetStartAt(r: Reservation, v: DateValue): (res: Result<Reservation, Error>)
    ensures res.Success? <==> IsValidDate(v)
    ensures res.Success? ==> Some(res.value.startAt) == v.time
    ensures res.Success? ==> res.value.(startAt := r.startAt) == r
    ensures res.Failure? ==> res.error == InvalidArgument(StartAtMessage)
  {
    match v
    case JsDate(Some(t)) => Success(r.(startAt := t))
    case _ => Failure(InvalidArgument(StartAtMessage))
  }

  /** The `notes` setter: falsy input becomes `''`, anything else is kept. */
  function SetNotes(r: Reservation, v: Option<string>): (r': Reservation)
    ensures r'.notes == "" <==> IsFalsy(v)
    ensures !IsFalsy(v) ==> Some(r'.notes) == v
    ensures r'.(notes := r.notes) == r
  {
    r.(notes := OrEmpty(v))
  }

  /** The write-once `customerId` setter: a truthy current value may only be
      assigned again, never changed. */
  function SetCustomerId(r: Reservation, v: Option<int>): (res: Result<Reservation, Error>)
    ensures res.Failure? <==> Locked(r.customerId) && v != r.customerId
    ensures res.Failure? ==> res.error == StateConflict(CustomerIdMessage)
    ensures res.Success? ==> res.value.customerId == v && res.value.(customerId := r.customerId) == r
  {
    if Locked(r.customerId) && r.customerId != v then Failure(StateConflict(CustomerIdMessage))
    else Success(r.(customerId := v))
  }

  /** The constructor: assigns `id`, then runs the `customerId`, `numGuests`,
      `startAt` and `notes` setters in that order on a fresh object, so the
      first failing setter decides the error. */
  function New(input: ReservationInput): (res: Result<Reservation, Error>)
    ensures res.Success? <==> input.numGuests.Guests? && input.numGuests.n >= 1 && IsValidDate(input.startAt)
    ensures res.Success? ==> Valid(res.value)
    ensures res.Success? ==> && res.value.id == input.id
                             && res.value.customerId == input.customerId
                             && Guests(res.value.numGuests) == input.numGuests
                             && JsDate(Some(res.value.startAt)) == input.startAt
                             && res.value.notes == OrEmpty(input.notes)
    ensures res.Failure? && !(input.numGuests.Guests? && input.numGuests.n >= 1) ==> res.error == InvalidArgument(GuestsMessage)
    ensures res.Failure? && input.numGuests.Guests? && input.numGuests.n >= 1 ==> res.error == InvalidArgument(StartAtMessage)
  {
    var blank := Reservation(input.id, None, 0, 0, "");
    var r1 := SetCustomerId(blank, input.customerId).value;
    var r2 :- SetNumGuests(r1, input.numGuests);
    var r3 :- SetStartAt(r2, input.startAt);
    Success(SetNotes(r3, input.notes))
  }

  /** The row `save` writes: `(customer_id, num_guests, start_at, notes)`.
      Whatever id it is stored under, it reads back as the reservation. */
  function ToRow(r: Reservation): (row: ReservationRow)
    ensures Valid(r) ==> forall k :: FromRow(k, row) == Success(r.(id := Some(k)))
  {
    ReservationRow(r.customerId, r.numGuests, r.startAt, Some(r.notes))
  }

  /** `new Reservation(row)` for a row read back under id `k`. */
  function FromRow(k: int, row: ReservationRow): (res: Result<Reservation, Error>)
    ensures res.Success? <==> row.numGuests >= 1
    ensures res.Success? ==> res.value.id == Some(k) && res.value.customerId == row.customerId
    ensures res.Success? ==> && res.value.numGuests == row.numGuests
                             && res.value.startAt == row.startAt
                             && res.value.notes == OrEmpty(row.notes)
    ensures res.Failure? ==> res.error == InvalidArgument(GuestsMessage)
  {
    New(ReservationInput(Some(k), row.customerId, Guests(row.numGuests), JsDate(Some(row.startAt)), row.notes))
  }

  /** Reading back a saved row gives the reservation that was saved. */
  lemma RowRoundTrip(r: Reservation, k: int)
    requires Valid(r)
    ensures FromRow(k, ToRow(r)) == Success(r.(id := Some(k)))
  {
  }

  /** `r` is what constructing the stored row with `r`'s id yields. */
  predicate IsStored(s: Store, r: Reservation) {
    r.id.Some? && r.id.value in s.reservations && FromRow(r.id.value, s.reservations[r.id.value]) == Success(r)
  }

  /** `rows.map(row => new Reservation(row))`: the first row that fails to
      construct aborts the whole mapping. */
  function LoadAll(s: Store, ids: seq<int>): (res: Result<seq<Reservation>, Error>)
    requires forall k :: k in ids ==> k in s.reservations
    ensures res.Success? <==> forall k :: k in ids ==> s.reservations[k].numGuests >= 1
    ensures res.Success? ==> |res.value| == |ids|
    ensures res.Success? ==> forall i :: 0 <= i < |ids| ==> res.value[i].id == Some(ids[i]) && IsStored(s, res.value[i])
    ensures res.Failure? ==> res.error == InvalidArgument(GuestsMessage)
  {
    if ids == [] then Success([])
    else
      var first :- FromRow(ids[0], s.reservations[ids[0]]);
      var rest :- LoadAll(s, ids[1..]);
      assert forall k :: k in ids ==> k == ids[0] || k in ids[1..];
      Success([first] + rest)
  }

  predicate BelongsTo(row: ReservationRow, customerId: Option<int>) {
    customerId.Some? && row.customerId == customerId
  }

  function Ids(rs: seq<Reservation>): (ids: seq<Option<int>>)
    ensures |ids| == |rs|
    ensures forall i :: 0 <= i < |rs| ==> ids[i] == rs[i].id
  {
    if rs == [] then [] else [rs[0].id] + Ids(rs[1..])
  }

  /** The ids `WHERE customer_id = $1` selects, in scan order. */
  function MatchingIds(s: Store, customerId: Option<int>): (ids: seq<int>)
    ensures Increasing(ids)
    ensures forall k :: k in ids <==> k in s.reservations && BelongsTo(s.reservations[k], customerId)
  {
    Where(ScanOrder(s.reservations.Keys), k => k in s.reservations && BelongsTo(s.reservations[k], customerId))
  }

  /** Which reservations the mapping over `ids` produces, and in what order. */
  lemma LoadedRows(s: Store, ids: seq<int>, rs: seq<Reservation>)
    requires forall k :: k in ids ==> k in s.reservations
    requires LoadAll(s, ids) == Success(rs)
    ensures forall k :: k in ids ==> Some(k) in Ids(rs)
    ensures Increasing(ids) ==> Ascending(Ids(rs))
  {
    forall k | k in ids ensures Some(k) in Ids(rs) {
      var i :| 0 <= i < |ids| && ids[i] == k;
      assert Ids(rs)[i] == Some(k);
    }
    assert forall i :: 0 <= i < |rs| ==> Ids(rs)[i] == Some(ids[i]);
  }

  /** Rows selected for a customer construct reservations of that customer. */
  lemma LoadedBelong(s: Store, customerId: Option<int>, ids: seq<int>, rs: seq<Reservation>)
    requires forall k :: k in ids ==> k in s.reservations && BelongsTo(s.reservations[k], customerId)
    requires LoadAll(s, ids) == Success(rs)
    ensures forall i :: 0 <= i < |rs| ==> BelongsTo(s.reservations[rs[i].id.value], customerId)
    ensures forall i :: 0 <= i < |rs| ==> rs[i].customerId == customerId
  {
    forall i | 0 <= i < |rs|
      ensures BelongsTo(s.reservations[rs[i].id.value], customerId) && rs[i].customerId == customerId
    {
      assert ids[i] in ids;
      assert FromRow(ids[i], s.reservations[ids[i]]) == Success(rs[i]);
    }
  }

  /** `SELECT ... FROM reservations WHERE customer_id = $1`. An unset id binds
      NULL, which equals nothing. */
  function GetReservationsForCustomer(s: Store, customerId: Option<int>): (res: Result<seq<Reservation>, Error>)
    ensures WellFormed(s) ==> res.Success?
    ensures res.Success? ==> forall i :: 0 <= i < |res.value| ==>
              IsStored(s, res.value[i]) && BelongsTo(s.reservations[res.value[i].id.value], customerId)
    ensures res.Success? ==> forall i :: 0 <= i < |res.value| ==> res.value[i].customerId == customerId
    ensures res.Success? ==> forall k :: k in s.reservations && BelongsTo(s.reservations[k], customerId) ==>
              Some(k) in Ids(res.value)
    ensures res.Success? ==> Ascending(Ids(res.value))
  {
    var ids := MatchingIds(s, customerId);
    var res := LoadAll(s, ids);
    if res.Success? then
      LoadedRows(s, ids, res.value);
      LoadedBelong(s, customerId, ids, res.value);
      res
    else
      res
  }

  /** Where the constructor parts from the source: a missing or NaN guest count
      with a valid date passes the guest check as written, but `New`, which runs
      the corrected check, rejects it. */
  lemma NewRejectsMissingCount(input: ReservationInput)
    requires input.numGuests == NotANumber && IsValidDate(input.startAt)
    ensures NumGuestsAsWritten(input.numGuests) == Success(None)
    ensures SetStartAt(Reservation(input.id, input.customerId, 0, 0, ""), input.startAt).Success?
    ensures New(input) == Failure(InvalidArgument(GuestsMessage))
  {
  }

  /** `save`: an unsaved reservation is inserted under the table's next id and
      takes that id; a saved one overwrites the row with its id, if any. */
  function Save(s: Store, r: Reservation): (out: (Store, Reservation))
    ensures out.0.customers == s.customers
    ensures out.1.id.Some?
    ensures out.1.(id := r.id) == r
    ensures r.id.Some? ==> out.1 == r
    ensures r.id.None? ==> && out.1.id == Some(s.nextReservationId)
                           && (WellFormed(s) ==> s.nextReservationId !in s.reservations)
                           && out.0.reservations.Keys == s.reservations.Keys + {s.nextReservationId}
    ensures r.id.Some? ==> out.0.reservations.Keys == s.reservations.Keys
    ensures out.0.nextCustomerId == s.nextCustomerId
    ensures r.id.Some? ==> out.0.nextReservationId == s.nextReservationId
    ensures r.id.None? ==> out.0.nextReservationId == s.nextReservationId + 1
    ensures out.1.id.value in out.0.reservations ==> out.0.reservations[out.1.id.value] == ToRow(r)
    ensures r.id.Some? && r.id.value !in s.reservations ==> out.0 == s
    ensures forall k :: k in s.reservations && Some(k) != out.1.id ==>
              k in out.0.reservations && out.0.reservations[k] == s.reservations[k]
    ensures WellFormed(s) && Valid(r) ==> WellFormed(out.0)
  {
    match r.id
    case None =>
      var k := s.nextReservationId;
      (s.(reservations := s.reservations[k := ToRow(r)], nextReservationId := k + 1), r.(id := Some(k)))
    case Some(k) =>
      if k in s.reservations then (s.(reservations := s.reservations[k := ToRow(r)]), r)
      else (s, r)
  }

  /** `save` as written: the store rejects its UPDATE statement. */
  function SaveAsWritten(s: Store, r: Reservation): (res: Result<(Store, Reservation), Error>)
    ensures res.Success? <==> r.id.None?
    ensures res.Success? ==> res.value == Save(s, r)
  {
    var statement := if r.id.None? then Sql.Insert("reservations", Sql.ReservationColumns)
                     else Sql.Update("reservations", Sql.ReservationColumns, true);
    Sql.InsertAccepted("reservations", Sql.ReservationColumns);
    Sql.UpdateAcceptedIff("reservations", Sql.ReservationColumns, true);
    if Sql.Accepts(statement) then Success(Save(s, r))
    else Failure(PersistenceFailure("syntax error"))
  }

  /** Once `customerId` holds a truthy `x`, assigning anything else fails and
      assigning `x` again changes nothing. */
  lemma CustomerIdWriteOnce(r: Reservation, x: int, v: Option<int>)
    requires x != 0
    requires SetCustomerId(r, Some(x)).Success?
    ensures var locked := SetCustomerId(r, Some(x)).value;
            && (v != Some(x) ==> SetCustomerId(locked, v) == Failure(StateConflict(CustomerIdMessage)))
            && SetCustomerId(locked, Some(x)) == Success(locked)
  {
  }

  lemma {:induction false} SingleId(ids: seq<int>, k: int)
    requires Increasing(ids)
    requires forall j :: j in ids <==> j == k
    ensures ids == [k]
  {
    assert k in ids;
    assert forall i :: 0 <= i < |ids| ==> ids[i] == k by {
      forall i | 0 <= i < |ids| ensures ids[i] == k {
        assert ids[i] in ids;
      }
    }
    assert ids[0] == ids[|ids| - 1];
    assert |ids| == 1;
  }

  lemma LoadOne(s: Store, k: int)
    requires k in s.reservations && s.reservations[k].numGuests >= 1
    ensures LoadAll(s, [k]) == Success([FromRow(k, s.reservations[k]).value])
  {
    var first := FromRow(k, s.reservations[k]);
    assert [k][1..] == [];
    assert LoadAll(s, [k][1..]) == Success([]);
    assert [first.value] + [] == [first.value];
  }

  /** A customer with exactly one reservation is listed with exactly that one. */
  lemma LoneReservation(s: Store, c: int, k: int)
    requires k in s.reservations && s.reservations[k].customerId == Some(c) && s.reservations[k].numGuests >= 1
    requires forall j :: j in s.reservations && j != k ==> s.reservations[j].customerId != Some(c)
    ensures GetReservationsForCustomer(s, Some(c)) == Success([FromRow(k, s.reservations[k]).value])
  {
    var ids := MatchingIds(s, Some(c));
    SingleId(ids, k);
    LoadOne(s, k);
  }

  /** Saving a new reservation for a customer who had none, then listing that
      customer's reservations, gives exactly the saved reservation. */
  lemma SaveNewThenList(s: Store, r: Reservation, c: int)
    requires WellFormed(s) && Valid(r) && r.id.None? && r.customerId == Some(c)
    requires forall k :: k in s.reservations ==> s.reservations[k].customerId != Some(c)
    ensures GetReservationsForCustomer(Save(s, r).0, Some(c)) == Success([Save(s, r).1])
  {
    var k := s.nextReservationId;
    var s' := s.(reservations := s.reservations[k := ToRow(r)], nextReservationId := k + 1);
    assert Save(s, r) == (s', r.(id := Some(k)));
    RowRoundTrip(r, k);
    LoneReservation(s', c, k);
  }
}
