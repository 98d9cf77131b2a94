/** `POST /rentfilm`: check the JSON fields, check the customer and then the
    staff member exist, then insert one rental and one payment whose ids are
    `MAX(id) + 1` of their tables. Whether the inserts and the commit succeed
    is the data store's verdict; the handler's `finally` answers with the
    confirmation message whatever that verdict was. */
module RentFilm {
  import opened Maybe
  import opened Tables
  import opened Http
  import Sql
  import Decimal

  /** The JSON body's three fields; a missing field and a JSON null are both
      `None`. The body itself is `None` when it is the JSON value `null`. */
  datatype RentRequest = RentRequest(inventoryId: Option<Id>, customerId: Option<Id>, staffId: Option<Id>)

  /** How the data store answers the statements of the `try` block. */
  datatype StoreVerdict = Commits | RentalInsertRaises | PaymentInsertRaises | CommitRaises

  const INVALID_CUSTOMER: string := "Invalid Customer ID"
  const INVALID_STAFF: string := "Invalid Staff ID"

  /** A body was sent and carries all three fields. */
  predicate Complete(body: Option<RentRequest>) {
    && body.Some?
    && body.value.inventoryId.Some?
    && body.value.customerId.Some?
    && body.value.staffId.Some?
  }

  /** The request gets past all validation: complete, a customer id that can
      be bound and exists, then a staff id that can be bound and exists. */
  predicate Passes(db: Db, body: Option<RentRequest>) {
    && Complete(body)
    && Sql.IsInteger(body.value.customerId.value)
    && body.value.customerId.value in db.customers
    && Sql.IsInteger(body.value.staffId.value)
    && body.value.staffId.value in db.staff
  }

  /** The inserts run with all three parameters bound, so only the store's
      verdict decides whether they are kept. */
  predicate ReachesStore(db: Db, body: Option<RentRequest>) {
    Passes(db, body) && Sql.IsInteger(body.value.inventoryId.value)
  }

  /** The confirmation, echoing the inventory and customer ids. */
  function RentedMessage(iid: Id, cid: Id): string {
    "Inventory ID " + Decimal.Str(iid) + " successfully rented to Customer ID " + Decimal.Str(cid)
  }

  /** `(SELECT MAX(rental_id) FROM rental) + 1` */
  function NextRentalId(db: Db): Option<Id> {
    Sql.Succ(Sql.Max(RentalIds(db.rentals)))
  }

  /** `(SELECT MAX(payment_id) FROM payment) + 1` */
  function NextPaymentId(db: Db): Option<Id> {
    Sql.Succ(Sql.Max(PaymentIds(db.payments)))
  }

  /** The first INSERT: a rental of copy `iid` with a NULL `return_date`. */
  function InsertRental(db: Db, iid: Id, cid: Id, sid: Id, clock: Clock): Db {
    var row := Rental(NextRentalId(db), clock.currentDate, iid, cid, None, sid, clock.currentTimestamp);
    db.(rentals := db.rentals + [row])
  }

  /** The second INSERT: its `rental_id` is whatever `MAX(rental_id)` reads
      now, and its amount the rate of the film behind copy `iid`. */
  function InsertPayment(db: Db, iid: Id, cid: Id, sid: Id, clock: Clock): Db {
    var row := Payment(
      NextPaymentId(db), cid, sid,
      Sql.Max(RentalIds(db.rentals)),
      RateOf(db.films, FilmOf(db.inventory, iid)),
      clock.currentTimestamp, clock.currentTimestamp);
    db.(payments := db.payments + [row])
  }

  /** Reading `MAX(rental_id)` right after the first INSERT finds the id that
      INSERT allocated. */
  lemma PaymentReadsNewRentalId(db: Db, iid: Id, cid: Id, sid: Id, clock: Clock)
    ensures var db1 := InsertRental(db, iid, cid, sid, clock);
            Sql.Max(RentalIds(db1.rentals)) == NextRentalId(db)
  {
  }

  /** The `/rentfilm` handler: the reply and the committed database. The
      customer and staff lookups run outside the `try`, so an id the driver
      cannot bind there escapes as Flask's own 500 error page. */
  function HandleRentFilm(db: Db, body: Option<RentRequest>, clocks: Clocks, verdict: StoreVerdict): (r: Reply)
    // a JSON null body, or a field missing: 400 with no body, nothing written
    ensures !Complete(body) <==> r.response == Empty(BAD_REQUEST)
    ensures !Complete(body) ==> r.db == db
    // the customer is checked before the staff member
    ensures Complete(body) && !Sql.IsInteger(body.value.customerId.value) ==>
              r.response == Empty(SERVER_ERROR) && r.db == db
    ensures Complete(body) && Sql.IsInteger(body.value.customerId.value) && body.value.customerId.value !in db.customers ==>
              r.response == Message(BAD_REQUEST, INVALID_CUSTOMER) && r.db == db
    ensures Complete(body) && Sql.IsInteger(body.value.customerId.value) && body.value.customerId.value in db.customers &&
            !Sql.IsInteger(body.value.staffId.value) ==>
              r.response == Empty(SERVER_ERROR) && r.db == db
    ensures Complete(body) && Sql.IsInteger(body.value.customerId.value) && body.value.customerId.value in db.customers &&
            Sql.IsInteger(body.value.staffId.value) && body.value.staffId.value !in db.staff ==>
              r.response == Message(BAD_REQUEST, INVALID_STAFF) && r.db == db
    // past validation the confirmation is sent whatever happens inside the `try`
    ensures Passes(db, body) ==>
              r.response == Message(OK, RentedMessage(body.value.inventoryId.value, body.value.customerId.value))
    ensures Passes(db, body) && !(ReachesStore(db, body) && verdict == Commits) ==> r.db == db
    // a committed rent adds exactly one rental and one payment, linked
    ensures ReachesStore(db, body) && verdict == Commits ==>
              var iid, cid, sid := body.value.inventoryId.value, body.value.customerId.value, body.value.staffId.value;
              && r.db.inventory == db.inventory
              && r.db.films == db.films
              && r.db.customers == db.customers
              && r.db.staff == db.staff
              && |r.db.rentals| == |db.rentals| + 1
              && r.db.rentals[..|db.rentals|] == db.rentals
              && |r.db.payments| == |db.payments| + 1
              && r.db.payments[..|db.payments|] == db.payments
              && var rental, payment := r.db.rentals[|db.rentals|], r.db.payments[|db.payments|];
              && rental == Rental(NextRentalId(db), clocks.atRentalInsert.currentDate, iid, cid, None, sid,
                                  clocks.atRentalInsert.currentTimestamp)
              && payment.id == NextPaymentId(db)
              && payment.customer == cid
              && payment.staff == sid
              && payment.rental == rental.id
              && payment.amount == RateOf(db.films, FilmOf(db.inventory, iid))
              && payment.paymentDate == clocks.atPaymentInsert.currentTimestamp
              && payment.lastUpdate == clocks.atPaymentInsert.currentTimestamp
  {
    if !Complete(body) then Reply(Empty(BAD_REQUEST), db)
    else
      var iid, cid, sid := body.value.inventoryId.value, body.value.customerId.value, body.value.staffId.value;
      if !Sql.IsInteger(cid) then Reply(Empty(SERVER_ERROR), db)
      else if cid !in db.customers then Reply(Message(BAD_REQUEST, INVALID_CUSTOMER), db)
      else if !Sql.IsInteger(sid) then Reply(Empty(SERVER_ERROR), db)
      else if sid !in db.staff then Reply(Message(BAD_REQUEST, INVALID_STAFF), db)
      else
        // an unbindable inventory id raises inside the `try`, like a store failure
        var committed :=
          if Sql.IsInteger(iid) && verdict == Commits then
            PaymentReadsNewRentalId(db, iid, cid, sid, clocks.atRentalInsert);
            var db1 := InsertRental(db, iid, cid, sid, clocks.atRentalInsert);
            InsertPayment(db1, iid, cid, sid, clocks.atPaymentInsert)
          else db;
        Reply(Message(OK, RentedMessage(iid, cid)), committed)
  }
}
