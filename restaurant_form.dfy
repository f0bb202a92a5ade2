/** `RestaurantForm`: the restaurant record a request builds, its presence,
    range and numericality validations in declaration order, and `persist`.
    Values reach the validations already cast to their column types, so a
    number that is present is numeric. */
module RestaurantForm {
  import opened Common
  import opened Models
  import opened Store

  /** The permitted fields of `params[:restaurant]`. */
  datatype RestaurantParams = RestaurantParams(
    name: Assign<Option<string>>,
    address: Assign<Option<string>>,
    area: Assign<Option<string>>,
    city: Assign<Option<string>>,
    state: Assign<Option<string>>,
    rating: Assign<Option<real>>,
    averageDeliveryTime: Assign<Option<int>>,
    averageCostPerTwo: Assign<Option<real>>,
    managerId: Assign<Option<int>>)

  /** `@restaurant.attributes = option`: supplied fields overwrite. */
  function Merge(base: Restaurant, p: RestaurantParams): Restaurant
  {
    Restaurant(Apply(p.name, base.name), Apply(p.address, base.address), Apply(p.area, base.area),
               Apply(p.city, base.city), Apply(p.state, base.state), Apply(p.rating, base.rating),
               Apply(p.averageDeliveryTime, base.averageDeliveryTime),
               Apply(p.averageCostPerTwo, base.averageCostPerTwo), Apply(p.managerId, base.managerId))
  }

  /** Unsupplied fields keep the stored values; supplied ones replace them. */
  lemma MergeKeepsUnsupplied(base: Restaurant, p: RestaurantParams)
    ensures Merge(base, p).name == (if p.name.Set? then p.name.value else base.name)
    ensures Merge(base, p).address == (if p.address.Set? then p.address.value else base.address)
    ensures Merge(base, p).area == (if p.area.Set? then p.area.value else base.area)
    ensures Merge(base, p).city == (if p.city.Set? then p.city.value else base.city)
    ensures Merge(base, p).state == (if p.state.Set? then p.state.value else base.state)
    ensures Merge(base, p).rating == (if p.rating.Set? then p.rating.value else base.rating)
    ensures Merge(base, p).averageDeliveryTime
            == (if p.averageDeliveryTime.Set? then p.averageDeliveryTime.value else base.averageDeliveryTime)
    ensures Merge(base, p).averageCostPerTwo
            == (if p.averageCostPerTwo.Set? then p.averageCostPerTwo.value else base.averageCostPerTwo)
    ensures Merge(base, p).managerId == (if p.managerId.Set? then p.managerId.value else base.managerId)
  {
  }

  function Missing<T>(field: string, value: Option<T>): seq<string>
  {
    if value.Some? then [] else [field + " can't be blank"]
  }

  /** The rating lies in the inclusive range 0..5 (nil does not). */
  predicate RatingInRange(rating: Option<real>)
  {
    rating.Some? && 0.0 <= rating.value <= 5.0
  }

  /** The form is acceptable: all nine fields present and the rating in
      range. */
  predicate FormValid(f: Restaurant)
  {
    && Present(f.name) && Present(f.address) && Present(f.area) && Present(f.city) && Present(f.state)
    && f.averageDeliveryTime.Some? && f.averageCostPerTwo.Some? && f.managerId.Some?
    && RatingInRange(f.rating)
  }

  /** The messages of the presence validation, field by field. */
  function PresenceErrors(f: Restaurant): seq<string>
  {
    Blank("Name", f.name) + Blank("Address", f.address) + Blank("Area", f.area)
    + Blank("City", f.city) + Blank("State", f.state) + Missing("Rating", f.rating)
    + Missing("Average delivery time", f.averageDeliveryTime)
    + Missing("Average cost per two", f.averageCostPerTwo) + Missing("Manager", f.managerId)
  }

  /** The messages `valid?` collects, in the order the validators run.
      `errors.full_messages` groups them by attribute, in the order in
      which each attribute first failed; it agrees with this list in being empty and in its first message,
      which is all `persist` uses. */
  function Errors(f: Restaurant): (r: seq<string>)
    ensures r == [] <==> FormValid(f)
  {
    PresenceErrors(f)
    + (if RatingInRange(f.rating) then [] else ["Rating is not included in the list"])
    + (if f.rating.Some? then [] else ["Rating is not a number"])
    + (if f.averageCostPerTwo.Some? then [] else ["Average cost per two is not a number"])
  }

  /** Whenever some field is blank, the first error raised is the first
      presence message: the range and numericality checks come after all of
      them. */
  lemma FirstErrorIsBlank(f: Restaurant)
    requires PresenceErrors(f) != []
    ensures Errors(f) != [] && Errors(f)[0] == PresenceErrors(f)[0]
  {
  }

  /** A blank name is reported first, whatever else is wrong. */
  lemma FirstErrorNameBlank(f: Restaurant)
    requires !Present(f.name)
    ensures Errors(f) != [] && Errors(f)[0] == "Name can't be blank"
  {
  }

  /** A missing manager_id, all else present, is reported as "Manager can't
      be blank" (the attribute name loses its "_id"). */
  lemma FirstErrorManagerBlank(f: Restaurant)
    requires Present(f.name) && Present(f.address) && Present(f.area) && Present(f.city) && Present(f.state)
    requires f.rating.Some? && f.averageDeliveryTime.Some? && f.averageCostPerTwo.Some?
    requires f.managerId.None?
    ensures Errors(f) != [] && Errors(f)[0] == "Manager can't be blank"
  {
  }

  /** With everything present, an out-of-range rating is the first (and only)
      error. */
  lemma RatingOutOfRange(f: Restaurant)
    requires Present(f.name) && Present(f.address) && Present(f.area) && Present(f.city) && Present(f.state)
    requires f.averageDeliveryTime.Some? && f.averageCostPerTwo.Some? && f.managerId.Some?
    requires f.rating.Some? && (f.rating.value < 0.0 || f.rating.value > 5.0)
    ensures Errors(f) == ["Rating is not included in the list"]
  {
  }

  const ManagerMustExist: string := "Validation failed: Manager must exist"

  /** What `persist` ends in for a merged record: the first form error, the
      missing-manager error of `save!`, or a save. */
  function PersistOutcome(f: Restaurant, users: map<nat, User>): Outcome
  {
    if Errors(f) != [] then Raised(Errors(f)[0])
    else if !ManagerExists(f, users) then Raised(ManagerMustExist)
    else Saved
  }

  /** Only a record that passes every validation, with an existing manager,
      is saved; and such a record is always saved. */
  lemma SavedIffValid(f: Restaurant, users: map<nat, User>)
    ensures PersistOutcome(f, users) == Saved <==> FormValid(f) && ManagerExists(f, users)
  {
  }

  /** A form object: the merged record it validates and saves. */
  class RestaurantForm {
    const id: Option<nat>
    const attributes: Restaurant

    /** `RestaurantForm.new(option, id)`: start from the stored restaurant
        (the caller names one that exists) or an empty one, and overwrite the
        supplied fields. The form keeps the id it started with. */
    constructor (db: Database, params: RestaurantParams, id: Option<nat>)
      requires id.Some? ==> id.value in db.restaurants
      ensures this.id == id
      ensures attributes == Merge(if id.Some? then db.restaurants[id.value] else NewRestaurant, params)
    {
      this.id := id;
      attributes := Merge(if id.Some? then db.restaurants[id.value] else NewRestaurant, params);
    }

    /** `persist`: raise the first form error, else `save!`, which raises
        when the manager does not exist and otherwise inserts a new
        restaurant or overwrites the stored one. */
    method Persist(db: Database) returns (r: Outcome)
      requires db.Valid()
      requires id.Some? ==> id.value in db.restaurants
      modifies db
      ensures db.Valid()
      ensures r == PersistOutcome(attributes, old(db.users))
      ensures r.Raised? ==>
                db.restaurants == old(db.restaurants) && db.nextRestaurantId == old(db.nextRestaurantId)
      ensures r.Saved? && id.None? ==>
                && db.restaurants == old(db.restaurants)[old(db.nextRestaurantId) := attributes]
                && db.nextRestaurantId == old(db.nextRestaurantId) + 1
      ensures r.Saved? && id.Some? ==>
                db.restaurants == old(db.restaurants)[id.value := attributes]
                && db.nextRestaurantId == old(db.nextRestaurantId)
      ensures db.users == old(db.users) && db.tokens == old(db.tokens)
      ensures db.nextUserId == old(db.nextUserId) && db.resetEmails == old(db.resetEmails)
    {
      var errors := Errors(attributes);
      if errors != [] {
        return Raised(errors[0]);
      }
      if !ManagerExists(attributes, db.users) {
        return Raised(ManagerMustExist);
      }
      if id.None? {
        db.restaurants := db.restaurants[db.nextRestaurantId := attributes];
        db.nextRestaurantId := db.nextRestaurantId + 1;
      } else {
        db.restaurants := db.restaurants[id.value := attributes];
      }
      r := Saved;
    }
  }
}
