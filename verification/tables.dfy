/** The part of the rental database the workflow reads and writes, as
    immutable tables. Each table is a sequence of rows in scan order; the
    customer and staff tables matter only through which ids exist. */
module Tables {
  import opened Maybe

  type Id = int
  /** A film's `rental_rate`; its decimal value is carried, never computed with. */
  type Rate = int
  /** A `CURRENT_DATE` or `CURRENT_TIMESTAMP` value, opaque to the model. */
  type Stamp = int

  datatype InventoryItem = InventoryItem(id: Id, film: Id)

  datatype Film = Film(id: Id, rentalRate: Rate)

  /** A `rental` row; `id` is nullable because `MAX(rental_id) + 1` is NULL on an empty table. */
  datatype Rental = Rental(
    id: Option<Id>,
    rentalDate: Stamp,
    inventory: Id,
    customer: Id,
    returnDate: Option<Stamp>,
    staff: Id,
    lastUpdate: Stamp)

  /** A `payment` row; `amount` is NULL when the inventory item or its film is unknown. */
  datatype Payment = Payment(
    id: Option<Id>,
    customer: Id,
    staff: Id,
    rental: Option<Id>,
    amount: Option<Rate>,
    paymentDate: Stamp,
    lastUpdate: Stamp)

  datatype Db = Db(
    inventory: seq<InventoryItem>,
    films: seq<Film>,
    customers: set<Id>,
    staff: set<Id>,
    rentals: seq<Rental>,
    payments: seq<Payment>)

  /** The database's clock while one statement runs: its `CURRENT_DATE` and
      `CURRENT_TIMESTAMP`. */
  datatype Clock = Clock(currentDate: Stamp, currentTimestamp: Stamp)

  /** Each INSERT of a rent is its own statement and reads the clock afresh. */
  datatype Clocks = Clocks(atRentalInsert: Clock, atPaymentInsert: Clock)

  /** The `rental_id` column. */
  function RentalIds(rs: seq<Rental>): (ids: seq<Option<Id>>)
    ensures |ids| == |rs|
    ensures forall i :: 0 <= i < |rs| ==> ids[i] == rs[i].id
  {
    seq(|rs|, i requires 0 <= i < |rs| => rs[i].id)
  }

  /** The `payment_id` column. */
  function PaymentIds(ps: seq<Payment>): (ids: seq<Option<Id>>)
    ensures |ids| == |ps|
    ensures forall i :: 0 <= i < |ps| ==> ids[i] == ps[i].id
  {
    seq(|ps|, i requires 0 <= i < |ps| => ps[i].id)
  }

  /** The copy `iid` is out: some rental of it has a NULL `return_date`. */
  predicate IsOut(rs: seq<Rental>, iid: Id) {
    exists i :: 0 <= i < |rs| && rs[i].inventory == iid && rs[i].returnDate.None?
  }

  /** The copy `iid` exists and is a copy of film `fid`. */
  predicate IsCopyOf(inv: seq<InventoryItem>, iid: Id, fid: Id) {
    exists i :: 0 <= i < |inv| && inv[i].id == iid && inv[i].film == fid
  }

  /** `(SELECT film_id FROM inventory WHERE inventory_id = iid)`: the film of
      the first matching row, NULL when no row matches. */
  function FilmOf(inv: seq<InventoryItem>, iid: Id): (f: Option<Id>)
    ensures f.None? <==> forall i :: 0 <= i < |inv| ==> inv[i].id != iid
    ensures f.Some? ==> IsCopyOf(inv, iid, f.value)
  {
    if |inv| == 0 then None
    else if inv[0].id == iid then Some(inv[0].film)
    else
      var f := FilmOf(inv[1..], iid);
      assert f.Some? ==> IsCopyOf(inv, iid, f.value) by {
        if f.Some? {
          var i :| 0 <= i < |inv[1..]| && inv[1..][i].id == iid && inv[1..][i].film == f.value;
          assert inv[i + 1] == inv[1..][i];
        }
      }
      f
  }

  /** `(SELECT rental_rate FROM film WHERE film_id = fid)`: the rate of the
      first matching film, NULL when none matches or `fid` is itself NULL. */
  function RateOf(films: seq<Film>, fid: Option<Id>): (r: Option<Rate>)
    ensures r.None? <==> fid.None? || forall j :: 0 <= j < |films| ==> films[j].id != fid.value
    ensures r.Some? ==> exists j :: 0 <= j < |films| && films[j].id == fid.value && films[j].rentalRate == r.value
  {
    if fid.None? || |films| == 0 then None
    else if films[0].id == fid.value then Some(films[0].rentalRate)
    else
      var r := RateOf(films[1..], fid);
      assert r.Some? ==> exists j :: 0 <= j < |films| && films[j].id == fid.value && films[j].rentalRate == r.value by {
        if r.Some? {
          var j :| 0 <= j < |films[1..]| && films[1..][j].id == fid.value && films[1..][j].rentalRate == r.value;
          assert films[j + 1] == films[1..][j];
        }
      }
      r
  }

  /** The key constraints the schema keeps: inventory and film ids are
      primary keys, non-NULL rental and payment ids never repeat, and every
      payment's non-NULL `rental_id` names an existing rental. */
  predicate Valid(db: Db) {
    && (forall i, j :: 0 <= i < j < |db.inventory| ==> db.inventory[i].id != db.inventory[j].id)
    && (forall i, j :: 0 <= i < j < |db.films| ==> db.films[i].id != db.films[j].id)
    && (forall i, j :: 0 <= i < j < |db.rentals| && db.rentals[i].id.Some? ==> db.rentals[i].id != db.rentals[j].id)
    && (forall i, j :: 0 <= i < j < |db.payments| && db.payments[i].id.Some? ==> db.payments[i].id != db.payments[j].id)
    && (forall k :: 0 <= k < |db.payments| && db.payments[k].rental.Some? ==>
          exists j :: 0 <= j < |db.rentals| && db.rentals[j].id == db.payments[k].rental)
  }

  /** Under unique inventory ids, the film looked up is the film of the one
      row carrying the id; likewise for the rate under unique film ids. */
  lemma {:induction false} LookupsFollowKeys(db: Db, iid: Id, i: int, j: int)
    requires Valid(db)
    requires 0 <= i < |db.inventory| && db.inventory[i].id == iid
    requires 0 <= j < |db.films| && db.films[j].id == db.inventory[i].film
    ensures FilmOf(db.inventory, iid) == Some(db.inventory[i].film)
    ensures RateOf(db.films, FilmOf(db.inventory, iid)) == Some(db.films[j].rentalRate)
  {
  }
}
