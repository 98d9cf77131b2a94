/** `GET /instock?film_id=...`: which copies of a film are on the shelf.
    Availability is not stored anywhere; it is the anti-join of the inventory
    against the rentals whose `return_date` is NULL. */
module InStock {
  import opened Maybe
  import opened Tables
  import opened Http
  import Decimal

  predicate Distinct(s: seq<Id>) {
    forall i, j :: 0 <= i < j < |s| ==> s[i] != s[j]
  }

  /** Copy `iid` of film `fid` is in stock: it exists and is not out. */
  predicate Available(db: Db, fid: Id, iid: Id) {
    IsCopyOf(db.inventory, iid, fid) && !IsOut(db.rentals, iid)
  }

  /** The rows of `SELECT inventory_id ... FROM inventory WHERE inventory_id
      NOT IN (open rentals) AND film_id = fid`, in inventory scan order. */
  function AvailableIds(inv: seq<InventoryItem>, rs: seq<Rental>, fid: Id): (ids: seq<Id>)
    ensures |ids| <= |inv|
    ensures forall x :: x in ids <==> IsCopyOf(inv, x, fid) && !IsOut(rs, x)
  {
    if |inv| == 0 then []
    else
      var head := if inv[0].film == fid && !IsOut(rs, inv[0].id) then [inv[0].id] else [];
      var tail := AvailableIds(inv[1..], rs, fid);
      assert forall x :: IsCopyOf(inv, x, fid) <==> (inv[0].id == x && inv[0].film == fid) || IsCopyOf(inv[1..], x, fid) by {
        forall x
          ensures IsCopyOf(inv, x, fid) ==> (inv[0].id == x && inv[0].film == fid) || IsCopyOf(inv[1..], x, fid)
        {
          if IsCopyOf(inv, x, fid) {
            var i :| 0 <= i < |inv| && inv[i].id == x && inv[i].film == fid;
            if i > 0 {
              assert inv[1..][i - 1] == inv[i];
            }
          }
        }
        forall x | IsCopyOf(inv[1..], x, fid)
          ensures IsCopyOf(inv, x, fid)
        {
          var i :| 0 <= i < |inv[1..]| && inv[1..][i].id == x && inv[1..][i].film == fid;
          assert inv[i + 1] == inv[1..][i];
        }
      }
      head + tail
  }

  /** The loop that builds the JSON body: each row adds one to `count` and
      appends its id to `in_stock`. */
  function AppendRows(count: int, inStock: seq<Id>, rows: seq<Id>): (body: (int, seq<Id>))
    ensures body.0 == count + |rows|
    ensures body.1 == inStock + rows
    decreases |rows|
  {
    if |rows| == 0 then (count, inStock)
    else
      assert inStock + rows == (inStock + [rows[0]]) + rows[1..];
      AppendRows(count + 1, inStock + [rows[0]], rows[1..])
  }

  /** The `/instock` handler. A missing `film_id` is a 400 with no body; any
      given text is compared with the `film_id` column, so text that does not
      read as a number matches no copy. The database is never changed. */
  function HandleInStock(db: Db, filmArg: Option<string>): (r: Reply)
    ensures r.db == db
    ensures filmArg.None? <==> r.response == Empty(BAD_REQUEST)
    ensures filmArg.Some? ==> r.response.Stock? && r.response.count == |r.response.inStock|
    ensures filmArg.Some? && Decimal.Parse(filmArg.value).None? ==> r.response.inStock == []
    ensures filmArg.Some? && Decimal.Parse(filmArg.value).Some? ==>
              forall x :: x in r.response.inStock <==> Available(db, Decimal.Parse(filmArg.value).value, x)
  {
    match filmArg
    case None => Reply(Empty(BAD_REQUEST), db)
    case Some(text) =>
      var rows := match Decimal.Parse(text)
        case None => []
        case Some(fid) => AvailableIds(db.inventory, db.rentals, fid);
      var body := AppendRows(0, [], rows);
      Reply(Stock(body.0, body.1), db)
  }

  /** With unique inventory ids, no copy is listed twice. */
  lemma {:induction false} AvailableIdsDistinct(inv: seq<InventoryItem>, rs: seq<Rental>, fid: Id)
    requires forall i, j :: 0 <= i < j < |inv| ==> inv[i].id != inv[j].id
    ensures Distinct(AvailableIds(inv, rs, fid))
  {
    if |inv| > 0 {
      var tail := AvailableIds(inv[1..], rs, fid);
      AvailableIdsDistinct(inv[1..], rs, fid);
      forall x | x in tail
        ensures x != inv[0].id
      {
        var i :| 0 <= i < |inv[1..]| && inv[1..][i].id == x && inv[1..][i].film == fid;
        assert inv[i + 1] == inv[1..][i];
      }
      var ids := AvailableIds(inv, rs, fid);
      if inv[0].film == fid && !IsOut(rs, inv[0].id) {
        assert ids == [inv[0].id] + tail;
        forall i, j | 0 <= i < j < |ids|
          ensures ids[i] != ids[j]
        {
          assert ids[j] == tail[j - 1];
          if i > 0 {
            assert ids[i] == tail[i - 1];
          }
        }
      } else {
        assert ids == tail;
      }
    }
  }

  /** The report for a well-formed database: exactly the available copies of
      the film, each once, counted. */
  lemma InStockReportsAvailableCopies(db: Db, fid: Id)
    requires Valid(db)
    ensures var r := HandleInStock(db, Some(Decimal.Str(fid))).response;
            && r.Stock?
            && r.count == |r.inStock|
            && (forall x :: x in r.inStock <==> Available(db, fid, x))
            && Distinct(r.inStock)
  {
    Decimal.StrRoundTrip(fid);
    AvailableIdsDistinct(db.inventory, db.rentals, fid);
    var rows := AvailableIds(db.inventory, db.rentals, fid);
    assert [] + rows == rows;
    assert HandleInStock(db, Some(Decimal.Str(fid))).response == Stock(|rows|, rows);
  }
}
