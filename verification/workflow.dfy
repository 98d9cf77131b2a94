/** Properties of the rental workflow that relate the two handlers, several
    calls, or the schema's key constraints. */
module Workflow {
  import opened Maybe
  import opened Tables
  import opened Http
  import Decimal
  import Sql
  import opened InStock
  import opened RentFilm

  /** In a well-formed database the payment charges the `rental_rate` of the
      film behind the rented copy, and is NULL when the copy is unknown. */
  lemma RentChargesFilmRate(db: Db, body: Option<RentRequest>, clocks: Clocks)
    requires Valid(db)
    requires ReachesStore(db, body)
    ensures var iid := body.value.inventoryId.value;
            var r := HandleRentFilm(db, body, clocks, Commits);
            && (forall i, j ::
                  (0 <= i < |db.inventory| && db.inventory[i].id == iid &&
                   0 <= j < |db.films| && db.films[j].id == db.inventory[i].film) ==>
                  r.db.payments[|db.payments|].amount == Some(db.films[j].rentalRate))
            && ((forall i :: 0 <= i < |db.inventory| ==> db.inventory[i].id != iid) ==>
                  r.db.payments[|db.payments|].amount.None?)
  {
    var iid := body.value.inventoryId.value;
    forall i, j | 0 <= i < |db.inventory| && db.inventory[i].id == iid &&
                  0 <= j < |db.films| && db.films[j].id == db.inventory[i].film
      ensures RateOf(db.films, FilmOf(db.inventory, iid)) == Some(db.films[j].rentalRate)
    {
      LookupsFollowKeys(db, iid, i, j);
    }
  }

  /** The allocated ids never collide: each is above every id already in its
      table, and it is NULL only when its table holds no id at all. */
  lemma RentAllocatesFreshIds(db: Db, body: Option<RentRequest>, clocks: Clocks)
    requires ReachesStore(db, body)
    ensures var r := HandleRentFilm(db, body, clocks, Commits);
            var rental, payment := r.db.rentals[|db.rentals|], r.db.payments[|db.payments|];
            && (rental.id.None? <==> forall i :: 0 <= i < |db.rentals| ==> db.rentals[i].id.None?)
            && (forall i :: 0 <= i < |db.rentals| && db.rentals[i].id.Some? ==> db.rentals[i].id.value < rental.id.value)
            && (payment.id.None? <==> forall k :: 0 <= k < |db.payments| ==> db.payments[k].id.None?)
            && (forall k :: 0 <= k < |db.payments| && db.payments[k].id.Some? ==> db.payments[k].id.value < payment.id.value)
  {
  }

  /** Every call keeps the schema's key constraints, so renting never
      duplicates a rental or payment id nor leaves a payment pointing nowhere. */
  lemma RentPreservesValid(db: Db, body: Option<RentRequest>, clocks: Clocks, verdict: StoreVerdict)
    requires Valid(db)
    ensures Valid(HandleRentFilm(db, body, clocks, verdict).db)
  {
    if ReachesStore(db, body) && verdict == Commits {
      var r := HandleRentFilm(db, body, clocks, Commits);
      var rs, ps := r.db.rentals, r.db.payments;
      var n, m := |db.rentals|, |db.payments|;
      RentAllocatesFreshIds(db, body, clocks);
      forall i, j | 0 <= i < j < |rs| && rs[i].id.Some?
        ensures rs[i].id != rs[j].id
      {
        assert rs[i] == db.rentals[i];
        if j < n {
          assert rs[j] == db.rentals[j];
        }
      }
      forall i, j | 0 <= i < j < |ps| && ps[i].id.Some?
        ensures ps[i].id != ps[j].id
      {
        assert ps[i] == db.payments[i];
        if j < m {
          assert ps[j] == db.payments[j];
        }
      }
      forall k | 0 <= k < |ps| && ps[k].rental.Some?
        ensures exists j :: 0 <= j < |rs| && rs[j].id == ps[k].rental
      {
        if k < m {
          assert ps[k] == db.payments[k];
          var j :| 0 <= j < n && db.rentals[j].id == ps[k].rental;
          assert rs[j] == db.rentals[j];
        } else {
          assert rs[n].id == ps[k].rental;
        }
      }
    }
  }

  /** The `return` in `finally` replaces the 500 of the `except` branch: the
      answer does not depend on the store's verdict, and the only 500s are
      the unbindable customer or staff ids met before the `try`. */
  lemma RentAnswerIgnoresStore(db: Db, body: Option<RentRequest>, clocks: Clocks, v1: StoreVerdict, v2: StoreVerdict)
    ensures HandleRentFilm(db, body, clocks, v1).response == HandleRentFilm(db, body, clocks, v2).response
    ensures Passes(db, body) ==> HandleRentFilm(db, body, clocks, v1).response.Status() == OK
    ensures HandleRentFilm(db, body, clocks, v1).response.Status() == SERVER_ERROR <==>
              && Complete(body)
              && (|| !Sql.IsInteger(body.value.customerId.value)
                  || (body.value.customerId.value in db.customers && !Sql.IsInteger(body.value.staffId.value)))
  {
  }

  /** A rent that raises inside the `try` -- the store fails, or the
      inventory id cannot be bound -- still reports success, yet writes nothing. */
  lemma FailedRentReportsSuccess(db: Db, body: Option<RentRequest>, clocks: Clocks, verdict: StoreVerdict)
    requires Passes(db, body)
    requires verdict != Commits || !ReachesStore(db, body)
    ensures var r := HandleRentFilm(db, body, clocks, verdict);
            r.response.Status() == OK && r.db.rentals == db.rentals && r.db.payments == db.payments
  {
  }

  lemma NoSpaceSplit(a: string, x: string, b: string, y: string)
    requires forall i :: 0 <= i < |a| ==> a[i] != ' '
    requires forall i :: 0 <= i < |b| ==> b[i] != ' '
    requires |x| > 0 && x[0] == ' ' && |y| > 0 && y[0] == ' '
    requires a + x == b + y
    ensures a == b && x == y
  {
    assert a == (a + x)[..|a|];
    assert b == (b + y)[..|b|];
    assert x == (a + x)[|a|..];
    assert y == (b + y)[|b|..];
  }

  /** Two texts of the shape `p + a + q + c`, where the ids `a` and `c` hold
      no space and the separator `q` starts with one, agree only when their
      ids agree. */
  lemma SplitAroundSeparator(p: string, q: string, a: string, b: string, c: string, d: string)
    requires forall i :: 0 <= i < |a| ==> a[i] != ' '
    requires forall i :: 0 <= i < |b| ==> b[i] != ' '
    requires |q| > 0 && q[0] == ' '
    requires p + a + q + c == p + b + q + d
    ensures a == b && c == d
  {
    var m1, m2 := p + a + q + c, p + b + q + d;
    assert a + (q + c) == m1[|p|..];
    assert b + (q + d) == m2[|p|..];
    NoSpaceSplit(a, q + c, b, q + d);
    assert c == (q + c)[|q|..];
    assert d == (q + d)[|q|..];
  }

  /** The confirmation names the inventory and customer ids unambiguously. */
  lemma RentedMessageInjective(i1: Id, c1: Id, i2: Id, c2: Id)
    requires RentedMessage(i1, c1) == RentedMessage(i2, c2)
    ensures i1 == i2 && c1 == c2
  {
    var q := " successfully rented to Customer ID ";
    assert q[0] == ' ';
    SplitAroundSeparator("Inventory ID ", q, Decimal.Str(i1), Decimal.Str(i2), Decimal.Str(c1), Decimal.Str(c2));
    Decimal.StrInjective(i1, i2);
    Decimal.StrInjective(c1, c2);
  }

  /** Once rented, the copy disappears from `/instock` for every film. */
  lemma RentTakesCopyOutOfStock(db: Db, body: Option<RentRequest>, clocks: Clocks, fid: Id)
    requires ReachesStore(db, body)
    ensures var r := HandleRentFilm(db, body, clocks, Commits);
            body.value.inventoryId.value !in HandleInStock(r.db, Some(Decimal.Str(fid))).response.inStock
  {
  }

  /** Renting changes the availability of no other copy. */
  lemma RentKeepsOtherCopies(db: Db, body: Option<RentRequest>, clocks: Clocks, verdict: StoreVerdict, fid: Id, x: Id)
    requires Complete(body) && x != body.value.inventoryId.value
    ensures Available(HandleRentFilm(db, body, clocks, verdict).db, fid, x) <==> Available(db, fid, x)
  {
  }

  /** No availability check precedes the inserts: a copy that is already out
      is rented again, leaving two open rentals of it. */
  lemma RentDoesNotCheckAvailability(db: Db, body: Option<RentRequest>, clocks: Clocks)
    requires ReachesStore(db, body)
    requires IsOut(db.rentals, body.value.inventoryId.value)
    ensures var r := HandleRentFilm(db, body, clocks, Commits);
            var iid := body.value.inventoryId.value;
            && r.response.Status() == OK
            && exists i, j :: 0 <= i < j < |r.db.rentals| &&
                 r.db.rentals[i].inventory == iid && r.db.rentals[i].returnDate.None? &&
                 r.db.rentals[j].inventory == iid && r.db.rentals[j].returnDate.None?
  {
  }

  /** On empty rental and payment tables `MAX(id) + 1` is NULL, so whatever
      the request, the first committed rent writes a rental and a payment
      with NULL ids, linked by NULL. */
  lemma FirstRentGetsNullIds(db: Db, body: Option<RentRequest>, clocks: Clocks)
    requires ReachesStore(db, body)
    requires db.rentals == [] && db.payments == []
    ensures var r := HandleRentFilm(db, body, clocks, Commits);
            && |r.db.rentals| == 1 && r.db.rentals[0].id.None?
            && |r.db.payments| == 1 && r.db.payments[0].id.None? && r.db.payments[0].rental.None?
  {
  }
}
