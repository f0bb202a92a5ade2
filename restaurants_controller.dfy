/** `RestaurantsController`: every action runs the request gate first; show
    and update then run `exists`, which renders 404 for an unknown id;
    create and update build a form, persist it and map a raised error to
    422 with its message. */
module RestaurantsController {
  import opened Common
  import opened Models
  import opened Store
  import opened ApplicationController
  import opened RestaurantForm

  const NotAvailable: Response := ErrorResponse(StatusNotFound, "restaurant is not available")

  /** `rows` lists every stored restaurant exactly once, each with its
      stored record. `Restaurant.all` fixes no order; the listing is in
      increasing id order by this model's choice. */
  ghost predicate ListsAll(rows: seq<(nat, Restaurant)>, restaurants: map<nat, Restaurant>)
  {
    && (forall i | 0 <= i < |rows| :: rows[i].0 in restaurants && rows[i].1 == restaurants[rows[i].0])
    && (forall i, j | 0 <= i < j < |rows| :: rows[i].0 < rows[j].0)
    && (forall id | id in restaurants :: exists i | 0 <= i < |rows| :: rows[i].0 == id)
  }

  /** `Restaurant.all`, walked in id order (an order the model chooses). */
  method AllRestaurants(db: Database) returns (rows: seq<(nat, Restaurant)>)
    requires db.Valid()
    ensures ListsAll(rows, db.restaurants)
  {
    rows := [];
    for id := 0 to db.nextRestaurantId
      invariant forall i | 0 <= i < |rows| ::
                  rows[i].0 < id && rows[i].0 in db.restaurants && rows[i].1 == db.restaurants[rows[i].0]
      invariant forall i, j | 0 <= i < j < |rows| :: rows[i].0 < rows[j].0
      invariant forall k | k in db.restaurants && k < id :: exists i | 0 <= i < |rows| :: rows[i].0 == k
    {
      if id in db.restaurants {
        var before := rows;
        rows := rows + [(id, db.restaurants[id])];
        forall k | k in db.restaurants && k < id + 1
          ensures exists i | 0 <= i < |rows| :: rows[i].0 == k
        {
          if k == id {
            assert rows[|rows| - 1].0 == k;
          } else {
            var i :| 0 <= i < |before| && before[i].0 == k;
            assert rows[i].0 == k;
          }
        }
      }
    }
  }

  /** The response `create` and `update` render for a persist outcome; the
      record shown carries the form's id (nil for a new restaurant). */
  function PersistResponse(o: Outcome, id: Option<nat>, f: Restaurant): Response
  {
    match o
    case Raised(message) => ErrorResponse(StatusUnprocessableEntity, message)
    case Saved => Response(StatusOk, RestaurantBody(id, f))
  }

  /** `index`: every stored restaurant. */
  method Index(db: Database, header: Option<string>, now: int) returns (resp: Response)
    requires db.Valid()
    modifies db
    ensures db.Valid()
    ensures db.tokens == AfterGate(old(db.tokens), header, now)
    ensures GateVerdict(old(db.tokens), header, now).Halt? ==>
              resp == GateVerdict(old(db.tokens), header, now).response
    ensures GateVerdict(old(db.tokens), header, now).Pass? ==>
              resp.status == StatusOk && resp.body.RestaurantsBody?
              && ListsAll(resp.body.restaurants, db.restaurants)
    ensures db.users == old(db.users) && db.restaurants == old(db.restaurants)
    ensures db.nextUserId == old(db.nextUserId) && db.nextRestaurantId == old(db.nextRestaurantId)
    ensures db.resetEmails == old(db.resetEmails)
  {
    var g := RunGate(db, header, now);
    if g.Halt? {
      return g.response;
    }
    var rows := AllRestaurants(db);
    resp := Response(StatusOk, RestaurantsBody(rows));
  }

  /** `exists`: `@restaurant` is the stored restaurant with this id, or the
      request ends with "restaurant is not available". */
  method Exists(db: Database, id: nat) returns (halt: Option<Response>)
    ensures halt.None? <==> id in db.restaurants
    ensures halt.Some? ==> halt == Some(NotAvailable)
  {
    halt := if id in db.restaurants then None else Some(NotAvailable);
  }

  /** `show`: the stored restaurant. */
  method Show(db: Database, header: Option<string>, id: nat, now: int) returns (resp: Response)
    requires db.Valid()
    modifies db
    ensures db.Valid()
    ensures db.tokens == AfterGate(old(db.tokens), header, now)
    ensures GateVerdict(old(db.tokens), header, now).Halt? ==>
              resp == GateVerdict(old(db.tokens), header, now).response
    ensures GateVerdict(old(db.tokens), header, now).Pass? ==>
              resp == if id in db.restaurants then Response(StatusOk, RestaurantBody(Some(id), db.restaurants[id]))
                      else NotAvailable
    ensures db.users == old(db.users) && db.restaurants == old(db.restaurants)
    ensures db.nextUserId == old(db.nextUserId) && db.nextRestaurantId == old(db.nextRestaurantId)
    ensures db.resetEmails == old(db.resetEmails)
  {
    var g := RunGate(db, header, now);
    if g.Halt? {
      return g.response;
    }
    var halt := Exists(db, id);
    if halt.Some? {
      return halt.value;
    }
    resp := Response(StatusOk, RestaurantBody(Some(id), db.restaurants[id]));
  }

  /** `create`: persist a new restaurant built from the parameters. */
  method Create(db: Database, header: Option<string>, params: RestaurantParams, now: int) returns (resp: Response)
    requires db.Valid()
    modifies db
    ensures db.Valid()
    ensures db.tokens == AfterGate(old(db.tokens), header, now)
    ensures GateVerdict(old(db.tokens), header, now).Halt? ==>
              && resp == GateVerdict(old(db.tokens), header, now).response
              && db.restaurants == old(db.restaurants) && db.nextRestaurantId == old(db.nextRestaurantId)
    ensures GateVerdict(old(db.tokens), header, now).Pass? ==>
              var f := Merge(NewRestaurant, params);
              var o := PersistOutcome(f, old(db.users));
              && resp == PersistResponse(o, None, f)
              && (o.Raised? ==> db.restaurants == old(db.restaurants)
                                && db.nextRestaurantId == old(db.nextRestaurantId))
              && (o.Saved? ==> db.restaurants == old(db.restaurants)[old(db.nextRestaurantId) := f]
                               && db.nextRestaurantId == old(db.nextRestaurantId) + 1)
    ensures db.users == old(db.users) && db.nextUserId == old(db.nextUserId)
    ensures db.resetEmails == old(db.resetEmails)
  {
    var g := RunGate(db, header, now);
    if g.Halt? {
      return g.response;
    }
    var form := new RestaurantForm(db, params, None);
    var o := form.Persist(db);
    resp := PersistResponse(o, form.id, form.attributes);
  }

  /** `update`: overwrite the supplied fields of the stored restaurant. */
  method Update(db: Database, header: Option<string>, id: nat, params: RestaurantParams, now: int)
    returns (resp: Response)
    requires db.Valid()
    modifies db
    ensures db.Valid()
    ensures db.tokens == AfterGate(old(db.tokens), header, now)
    ensures GateVerdict(old(db.tokens), header, now).Halt? ==>
              resp == GateVerdict(old(db.tokens), header, now).response && db.restaurants == old(db.restaurants)
    ensures GateVerdict(old(db.tokens), header, now).Pass? && id !in old(db.restaurants) ==>
              resp == NotAvailable && db.restaurants == old(db.restaurants)
    ensures GateVerdict(old(db.tokens), header, now).Pass? && id in old(db.restaurants) ==>
              var f := Merge(old(db.restaurants)[id], params);
              var o := PersistOutcome(f, old(db.users));
              && resp == PersistResponse(o, Some(id), f)
              && db.restaurants == (if o.Saved? then old(db.restaurants)[id := f] else old(db.restaurants))
    ensures db.nextRestaurantId == old(db.nextRestaurantId)
    ensures db.users == old(db.users) && db.nextUserId == old(db.nextUserId)
    ensures db.resetEmails == old(db.resetEmails)
  {
    var g := RunGate(db, header, now);
    if g.Halt? {
      return g.response;
    }
    var halt := Exists(db, id);
    if halt.Some? {
      return halt.value;
    }
    var form := new RestaurantForm(db, params, Some(id));
    var o := form.Persist(db);
    resp := PersistResponse(o, form.id, form.attributes);
  }
}
