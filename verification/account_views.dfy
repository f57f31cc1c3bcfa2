/** The follow views of the main tree (`api/views/account.py`): subscribe
    to a user, unsubscribe, and list one's subscriptions, over the user
    table, the recipes and the follow relation. The requester is an
    authenticated user's key. */
module FollowViews {
  import opened Common
  import opened Models
  import opened Relation
  import ApiAccountSerializers

  /** The outcome of a subscribe request. */
  datatype PostOutcome =
    | Subscribed(recipesCount: nat)
    | UserNotFound
    | CannotFollowSelf
    | AlreadySubscribed

  /** The HTTP status each outcome answers with. */
  function StatusOf(o: PostOutcome): (s: Status)
    ensures s == Created201 <==> o.Subscribed?
    ensures s == NotFound404 <==> o == UserNotFound
    ensures s == BadRequest400 <==> o == CannotFollowSelf || o == AlreadySubscribed
  {
    match o
    case Subscribed(_) => Created201
    case UserNotFound => NotFound404
    case CannotFollowSelf => BadRequest400
    case AlreadySubscribed => BadRequest400
  }

  /** `get_following_user`: the user with key `followingId` with their
      recipe count, or 404 (the lookup and its fallback both end in 404
      for a missing key). */
  function GetFollowingUser(users: map<nat, User>, recipes: seq<Recipe>, followingId: nat)
    : (r: Result<(User, nat), Status>)
    ensures r.Failure? <==> followingId !in users
    ensures r.Failure? ==> r.error == NotFound404
    ensures r.Success? ==> r.value.0 == users[followingId] && r.value.1 == |AuthoredBy(recipes, followingId)|
  {
    if followingId in users then Success((users[followingId], RecipesCount(recipes, followingId)))
    else Failure(NotFound404)
  }

  /** `FollowView.post`: 404 for an unknown user, then a refusal to follow
      oneself, then a refusal to follow twice; otherwise exactly one row
      (requester, user) is added and the answer carries the user's recipe
      count. A refusal leaves the relation as it was. */
  function Post(users: map<nat, User>, recipes: seq<Recipe>, follows: Table, requester: nat, followingId: nat)
    : (r: (PostOutcome, Table))
    ensures r.0 == UserNotFound <==> followingId !in users
    ensures r.0 == CannotFollowSelf <==> followingId in users && followingId == requester
    ensures r.0 == AlreadySubscribed <==>
      followingId in users && followingId != requester && Has(follows, Link(requester, followingId))
    ensures r.0.Subscribed? ==> r.0.recipesCount == |AuthoredBy(recipes, followingId)|
    ensures r.0.Subscribed? ==> multiset(r.1) == multiset(follows) + multiset{Link(requester, followingId)}
    ensures !r.0.Subscribed? ==> r.1 == follows
  {
    match GetFollowingUser(users, recipes, followingId)
    case Failure(_) => (UserNotFound, follows)
    case Success((_, recipesCount)) =>
      if requester == followingId then (CannotFollowSelf, follows)
      else if Link(requester, followingId) in follows then (AlreadySubscribed, follows)
      else (Subscribed(recipesCount), ApiAccountSerializers.CreateFollow(follows, Link(requester, followingId)))
  }

  /** `FollowView.delete`: every row (requester, following) is deleted;
      204 when there was one, otherwise 400 with the relation unchanged.
      The user table is not consulted. */
  function Delete(follows: Table, requester: nat, followingId: nat): (r: (Status, Table))
    ensures r.0 == NoContent204 <==> Has(follows, Link(requester, followingId))
    ensures r.0 == NoContent204 || r.0 == BadRequest400
    ensures !Has(r.1, Link(requester, followingId))
    ensures forall x :: x != Link(requester, followingId) ==> multiset(r.1)[x] == multiset(follows)[x]
    ensures r.0 == BadRequest400 ==> r.1 == follows
  {
    var l := Link(requester, followingId);
    var deletedCount := CountOf(follows, l);
    CountPositiveIffHas(follows, l);
    if deletedCount > 0 then (NoContent204, Relation.Delete(follows, l))
    else
      DeleteAbsent(follows, l);
      (BadRequest400, Relation.Delete(follows, l))
  }

  /** Every follow row names users of the table. */
  predicate FollowsReferenceUsers(users: map<nat, User>, follows: Table) {
    forall l :: l in follows ==> l.user in users && l.target in users
  }

  /** Unsubscribing from a key no user has is answered 400, not 404: the
      view does not look the user up, and no row can point at a missing
      user. */
  lemma DeleteUnknownUserIs400(users: map<nat, User>, follows: Table, requester: nat, followingId: nat)
    requires FollowsReferenceUsers(users, follows) && followingId !in users
    ensures Delete(follows, requester, followingId).0 == BadRequest400
    ensures Post(users, [], follows, requester, followingId).0 == UserNotFound
  {
  }

  /** Nobody follows themselves. The model table does not forbid it; the
      subscribe view is what keeps it out. */
  predicate NoSelfFollow(follows: Table) {
    forall l :: l in follows ==> l.user != l.target
  }

  /** The relation invariants the follow views keep: the
      `unique_follower` constraint, the foreign keys and no self-follows. */
  predicate FollowsValid(users: map<nat, User>, follows: Table) {
    Unique(follows) && NoSelfFollow(follows) && FollowsReferenceUsers(users, follows)
  }

  /** Subscribing keeps the relation invariants. */
  lemma PostKeepsInvariants(users: map<nat, User>, recipes: seq<Recipe>, follows: Table, requester: nat, followingId: nat)
    requires FollowsValid(users, follows) && requester in users
    ensures FollowsValid(users, Post(users, recipes, follows, requester, followingId).1)
  {
    var l := Link(requester, followingId);
    if followingId in users && followingId != requester && !Has(follows, l) {
      ApiAccountSerializers.CreateFollowKeepsUnique(follows, l);
      var t := Post(users, recipes, follows, requester, followingId).1;
      assert t == follows + [l];
    }
  }

  /** Unsubscribing keeps the relation invariants. */
  lemma DeleteKeepsInvariants(users: map<nat, User>, follows: Table, requester: nat, followingId: nat)
    requires FollowsValid(users, follows)
    ensures FollowsValid(users, Delete(follows, requester, followingId).1)
  {
    DeleteKeepsUnique(follows, Link(requester, followingId));
  }

  /** `FollowersList.get_queryset`: the follow rows whose follower is the
      requester, in table order. */
  function FollowersList(follows: Table, requester: nat): (r: Table)
    ensures forall l :: l in r <==> l in follows && l.user == requester
    ensures |r| <= |follows|
  {
    Filter((l: Link) => l.user == requester, follows)
  }

  /** After a successful subscribe the new row is in the requester's list,
      and a successful unsubscribe takes it out. */
  lemma ListFollowsViews(users: map<nat, User>, recipes: seq<Recipe>, follows: Table, requester: nat, followingId: nat)
    ensures Post(users, recipes, follows, requester, followingId).0.Subscribed? ==>
      Link(requester, followingId) in FollowersList(Post(users, recipes, follows, requester, followingId).1, requester)
    ensures Link(requester, followingId) !in FollowersList(Delete(follows, requester, followingId).1, requester)
  {
  }

  /** Subscribing and then unsubscribing gives back the relation. */
  lemma PostThenDelete(users: map<nat, User>, recipes: seq<Recipe>, follows: Table, requester: nat, followingId: nat)
    requires Post(users, recipes, follows, requester, followingId).0.Subscribed?
    ensures var t := Post(users, recipes, follows, requester, followingId).1;
      Delete(t, requester, followingId) == (NoContent204, follows)
  {
    DeleteAppended(follows, Link(requester, followingId));
  }
}
