/** The persistent store behind the API (the three tables) and the response
    every request ends in. */
module Store {
  import opened Common
  import opened Models

  /** The body of a rendered response. */
  datatype Body =
    | ErrorBody(error: string)                      // { error: message }
    | EmptyBody                                     // {}
    | UserBody(user: map<string, Json>)             // { user: UserPresenter#_show }
    | RestaurantBody(id: Option<nat>, restaurant: Restaurant)
    | RestaurantsBody(restaurants: seq<(nat, Restaurant)>)

  datatype Response = Response(status: int, body: Body)

  function ErrorResponse(status: int, message: string): Response
  {
    Response(status, ErrorBody(message))
  }

  /** What `persist` and `save!` end in: the record was saved, or the first
      error message was raised. */
  datatype Outcome = Saved | Raised(message: string)

  /** The database: users and restaurants keyed by id, auth tokens keyed by
      their (unique) token string, and a log of the users a reset-password
      email was sent to. */
  class Database {
    var users: map<nat, User>
    var tokens: map<string, AuthToken>
    var restaurants: map<nat, Restaurant>
    var nextUserId: nat
    var nextRestaurantId: nat
    ghost var resetEmails: seq<nat>

    /** Ids are allocated below the counters; every owned token belongs to a
        stored user and every restaurant to a stored manager. */
    ghost predicate Valid()
      reads this
    {
      && (forall id | id in users :: id < nextUserId)
      && (forall id | id in restaurants :: id < nextRestaurantId)
      && (forall k | k in tokens && tokens[k].userId.Some? :: tokens[k].userId.value in users)
      && (forall id | id in restaurants :: ManagerExists(restaurants[id], users))
    }

    constructor ()
      ensures Valid()
      ensures users == map[] && tokens == map[] && restaurants == map[]
      ensures resetEmails == []
    {
      users, tokens, restaurants := map[], map[], map[];
      nextUserId, nextRestaurantId := 0, 0;
      resetEmails := [];
    }
  }

  /** `belongs_to :manager`: the restaurant's manager_id names a stored user. */
  predicate ManagerExists(r: Restaurant, users: map<nat, User>)
  {
    r.managerId.Some? && r.managerId.value >= 0 && r.managerId.value as nat in users
  }
}
