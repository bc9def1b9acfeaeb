/** The relational store behind both entities, as two tables of rows keyed by
    id. Each table has a SERIAL-style counter that supplies the id of the next
    inserted row. Queries without an `ORDER BY` return rows in ascending id
    order in this model. */
module Store {
  import opened Wrappers

  /** The error kinds the core propagates to its callers. */
  datatype Error =
    | NotFound(id: int)
    | InvalidArgument(message: string)
    | StateConflict(message: string)
    | PersistenceFailure(message: string)

  /** Only a missing customer carries an HTTP status (`err.status = 404`). */
  function Status(e: Error): Option<int> {
    if e.NotFound? then Some(404) else None
  }

  /** A `customers` row: there is no middle-name column. Text columns may be NULL. */
  datatype CustomerRow = CustomerRow(firstName: string, lastName: string, phone: Option<string>, notes: Option<string>)

  /** A `reservations` row; `startAt` is a timestamp in milliseconds. */
  datatype ReservationRow = ReservationRow(customerId: Option<int>, numGuests: int, startAt: int, notes: Option<string>)

  datatype Store = Store(
    customers: map<int, CustomerRow>,
    reservations: map<int, ReservationRow>,
    nextCustomerId: int,
    nextReservationId: int)

  /** Every id in use was handed out by its table's counter, and every stored
      reservation has at least one guest. */
  predicate WellFormed(s: Store) {
    && (forall k :: k in s.customers ==> k < s.nextCustomerId)
    && (forall k :: k in s.reservations ==> k < s.nextReservationId && s.reservations[k].numGuests >= 1)
  }

  predicate Increasing(ids: seq<int>) {
    forall i, j :: 0 <= i < j < |ids| ==> ids[i] < ids[j]
  }

  lemma {:induction false} HasSmallest(ids: set<int>)
    requires ids != {}
    ensures exists m :: m in ids && forall k :: k in ids ==> m <= k
  {
    assert exists k :: k in ids by {
      if forall k :: k !in ids {
        assert false;
      }
    }
    var k :| k in ids;
    if ids != {k} {
      HasSmallest(ids - {k});
      var m :| m in ids - {k} && forall j :: j in ids - {k} ==> m <= j;
      assert forall j :: j in ids ==> j == k || j in ids - {k};
      if k < m {
        assert forall j :: j in ids ==> k <= j;
      } else {
        assert m in ids && forall j :: j in ids ==> m <= j;
      }
    }
  }

  /** Ids of loaded entities in strictly ascending order: scan order, with no
      row twice. */
  predicate Ascending(ids: seq<Option<int>>) {
    forall i, j :: 0 <= i < j < |ids| ==> ids[i].Some? && ids[j].Some? && ids[i].value < ids[j].value
  }

  function Smallest(ids: set<int>): (m: int)
    requires ids != {}
    ensures m in ids
    ensures forall k :: k in ids ==> m <= k
  {
    HasSmallest(ids);
    var m :| m in ids && forall k :: k in ids ==> m <= k;
    m
  }

  /** The ids of a table in the order a scan returns them. */
  function ScanOrder(ids: set<int>): (r: seq<int>)
    ensures Increasing(r)
    ensures |r| == |ids|
    ensures forall k :: k in r <==> k in ids
    decreases |ids|
  {
    if ids == {} then []
    else
      var m := Smallest(ids);
      [m] + ScanOrder(ids - {m})
  }

  /** The ids satisfying a `WHERE` clause, in scan order. */
  function Where(ids: seq<int>, p: int -> bool): (r: seq<int>)
    requires Increasing(ids)
    ensures Increasing(r)
    ensures |r| <= |ids|
    ensures forall k :: k in r <==> k in ids && p(k)
  {
    if ids == [] then []
    else if p(ids[0]) then
      var rest := Where(ids[1..], p);
      assert forall j :: 0 <= j < |rest| ==> rest[j] in ids[1..];
      [ids[0]] + rest
    else Where(ids[1..], p)
  }

  /** Number of reservations whose `customer_id` is `customerId`: the `COUNT(*)`
      of an inner join of customers with reservations, grouped by customer. */
  function ReservationCount(s: Store, customerId: int): (n: nat)
    ensures n >= 1 <==> exists k :: k in s.reservations && s.reservations[k].customerId == Some(customerId)
  {
    var booked := set k | k in s.reservations && s.reservations[k].customerId == Some(customerId);
    NonEmptyCount(booked);
    assert (exists k :: k in booked) <==> exists k :: k in s.reservations && s.reservations[k].customerId == Some(customerId) by {
      if exists k :: k in s.reservations && s.reservations[k].customerId == Some(customerId) {
        var k :| k in s.reservations && s.reservations[k].customerId == Some(customerId);
        assert k in booked;
      }
    }
    |booked|
  }

  /** A finite set has a member exactly when its size is at least one. */
  lemma NonEmptyCount(ks: set<int>)
    ensures |ks| >= 1 <==> exists k :: k in ks
  {
    if |ks| >= 1 {
      assert ks != {};
      assert exists k :: k in ks by {
        if forall k :: k !in ks {
          assert false;
        }
      }
    }
  }

  lemma IncreasingIsDistinct(ids: seq<int>)
    requires Increasing(ids)
    ensures forall i, j :: 0 <= i < j < |ids| ==> ids[i] != ids[j]
  {
  }
}
