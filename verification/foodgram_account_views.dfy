/** The user and follow views of the `foodgram` tree
    (`foodgram/account/views.py`): which permission and serializer each
    user action gets, sign-out, and the follow views, which unlike the main
    tree's look the user up before unsubscribing and delete only the first
    matching row. */
module FoodgramAccountViews {
  import opened Common
  import opened Models
  import opened Relation
  import Permissions
  import AccountSerializers
  import FollowViews

  /** The permission classes a user action can be given. */
  datatype Permission = AllowAny | IsAuthenticated | CurrentUserAdminOrReadOnly

  /** `UserViewSet.get_permissions`: registration is open to anyone, `me`
      and `set_password` need a signed-in user, every other action has the
      class default. */
  function PermissionsFor(action: string): (r: Permission)
    ensures r == AllowAny <==> action == "create"
    ensures r == IsAuthenticated <==> action == "me" || action == "set_password"
    ensures r == CurrentUserAdminOrReadOnly <==> action != "create" && action != "me" && action != "set_password"
  {
    if action == "create" then AllowAny
    else if action == "me" || action == "set_password" then IsAuthenticated
    else CurrentUserAdminOrReadOnly
  }

  /** `has_permission` of each class: only `IsAuthenticated` asks for
      anything; `CurrentUserAdminOrReadOnly` keeps the permissive default
      and checks only objects. */
  function ViewAllows(p: Permission, who: Requester): (r: bool)
    ensures r <==> p != IsAuthenticated || who.IsAuthenticated()
  {
    match p
    case IsAuthenticated => who.Member?
    case _ => true
  }

  /** `has_object_permission` of each class, for the user with key `objPk`. */
  function ObjectAllows(p: Permission, verb: string, who: Requester, objPk: nat): (r: bool)
    ensures p != CurrentUserAdminOrReadOnly ==> r
    ensures p == CurrentUserAdminOrReadOnly ==> (r <==> Permissions.CurrentUserAdminOrReadOnly(verb, who, objPk))
  {
    match p
    case CurrentUserAdminOrReadOnly => Permissions.CurrentUserAdminOrReadOnly(verb, who, objPk)
    case _ => true
  }

  /** An anonymous requester may register and read, but cannot reach `me`
      or `set_password`, nor change another user. */
  lemma AnonymousAccess(action: string, verb: string, objPk: nat)
    ensures ViewAllows(PermissionsFor("create"), Anonymous)
    ensures ViewAllows(PermissionsFor(action), Anonymous) <==> action != "me" && action != "set_password"
    ensures action != "create" && action != "me" && action != "set_password" ==>
      (ObjectAllows(PermissionsFor(action), verb, Anonymous, objPk) <==> Permissions.IsSafe(verb))
  {
  }

  /** The serializers a user action can be given. */
  datatype SerializerKind = ExtendedUserCreateSerializer | SetPasswordSerializer | UserSerializer

  /** `UserViewSet.get_serializer_class`. */
  function SerializerFor(action: string): (r: SerializerKind)
    ensures r == ExtendedUserCreateSerializer <==> action == "create"
    ensures r == SetPasswordSerializer <==> action == "set_password"
    ensures r == UserSerializer <==> action != "create" && action != "set_password"
  {
    if action == "create" then ExtendedUserCreateSerializer
    else if action == "set_password" then SetPasswordSerializer
    else UserSerializer
  }

  /** Every action that needs a signed-in user other than `set_password`
      renders users with `UserSerializer`. */
  lemma AuthenticatedActionsRenderUsers(action: string)
    requires PermissionsFor(action) == IsAuthenticated && action != "set_password"
    ensures SerializerFor(action) == UserSerializer
  {
  }

  /** `SignoutView.post`: 204, and no state changes (the tokens are not
      revoked). */
  function Signout<S>(state: S): (r: (Status, S))
    ensures r.0 == NoContent204 && r.1 == state
  {
    (NoContent204, state)
  }

  /** The outcome of a subscribe request. */
  datatype FollowOutcome = Created(follow: Link) | NoSuchUser | SelfFollow | Duplicate

  function StatusOf(o: FollowOutcome): (s: Status)
    ensures s == Created201 <==> o.Created?
    ensures s == NotFound404 <==> o == NoSuchUser
    ensures s == BadRequest400 <==> o == SelfFollow || o == Duplicate
  {
    match o
    case Created(_) => Created201
    case NoSuchUser => NotFound404
    case SelfFollow => BadRequest400
    case Duplicate => BadRequest400
  }

  /** `FollowView.post`: 404 for an unknown user, then a refusal to follow
      oneself, then a refusal to follow twice; otherwise the row
      (requester, user) is created and rendered. */
  function Post(users: map<nat, User>, follows: Table, requester: nat, followingId: nat): (r: (FollowOutcome, Table))
    ensures r.0 == NoSuchUser <==> followingId !in users
    ensures r.0 == SelfFollow <==> followingId in users && followingId == requester
    ensures r.0 == Duplicate <==> followingId in users && followingId != requester && Has(follows, Link(requester, followingId))
    ensures r.0.Created? ==> r.0.follow == Link(requester, followingId)
    ensures r.0.Created? ==> multiset(r.1) == multiset(follows) + multiset{r.0.follow}
    ensures r.0.Created? ==> |r.1| == |follows| + 1 && r.1[..|follows|] == follows
    ensures !r.0.Created? ==> r.1 == follows
  {
    if followingId !in users then (NoSuchUser, follows)
    else if requester == followingId then (SelfFollow, follows)
    else if Link(requester, followingId) in follows then (Duplicate, follows)
    else
      var l := Link(requester, followingId);
      (Created(l), follows + [l])
  }

  /** The two trees' subscribe views answer with the same status and leave
      the same relation. */
  lemma PostAgreesWithMainTree(users: map<nat, User>, recipes: seq<Recipe>, follows: Table, requester: nat, followingId: nat)
    ensures StatusOf(Post(users, follows, requester, followingId).0)
      == FollowViews.StatusOf(FollowViews.Post(users, recipes, follows, requester, followingId).0)
    ensures Post(users, follows, requester, followingId).1
      == FollowViews.Post(users, recipes, follows, requester, followingId).1
  {
  }

  /** `.first()` then `.delete()`: the first row of the pair goes, every
      other row stays in its order. */
  function DeleteFirst(t: Table, l: Link): (r: Table)
    ensures multiset(r) == multiset(t) - multiset{l}
    ensures Has(t, l) ==> |r| == |t| - 1
    ensures !Has(t, l) ==> r == t
  {
    if t == [] then []
    else if t[0] == l then
      HeadTail(t);
      t[1..]
    else
      var rest := DeleteFirst(t[1..], l);
      HeadTail(t);
      assert multiset([t[0]] + rest) == multiset{t[0]} + multiset(rest);
      [t[0]] + rest
  }

  /** A non-empty table is its first row followed by the rest. */
  lemma HeadTail(t: Table)
    requires t != []
    ensures t == [t[0]] + t[1..]
    ensures multiset(t) == multiset{t[0]} + multiset(t[1..])
  {
    assert t == [t[0]] + t[1..];
  }

  /** Under the `unique_follower` constraint there is at most one row per
      pair, so deleting the first is deleting all of them. */
  lemma {:induction false} DeleteFirstOfUnique(t: Table, l: Link)
    requires Unique(t)
    ensures DeleteFirst(t, l) == Relation.Delete(t, l)
  {
    if t != [] {
      assert Unique(t[1..]) by {
        forall i, j | 0 <= i < j < |t[1..]| ensures t[1..][i] != t[1..][j] {
          assert t[1..][i] == t[i + 1] && t[1..][j] == t[j + 1];
        }
      }
      if t[0] == l {
        assert !Has(t[1..], l);
        DeleteAbsent(t[1..], l);
      } else {
        DeleteFirstOfUnique(t[1..], l);
      }
    }
  }

  /** `FollowView.delete`: 404 for an unknown user; otherwise the first row
      (requester, user) is deleted and the answer is 204, or 400 with the
      relation unchanged when there is none. */
  function Delete(users: map<nat, User>, follows: Table, requester: nat, followingId: nat): (r: (Status, Table))
    ensures r.0 == NotFound404 <==> followingId !in users
    ensures r.0 == NoContent204 <==> followingId in users && Has(follows, Link(requester, followingId))
    ensures r.0 == BadRequest400 <==> followingId in users && !Has(follows, Link(requester, followingId))
    ensures r.0 == NoContent204 ==> multiset(r.1) == multiset(follows) - multiset{Link(requester, followingId)}
    ensures r.0 != NoContent204 ==> r.1 == follows
  {
    if followingId !in users then (NotFound404, follows)
    else
      var l := Link(requester, followingId);
      if l in follows then (NoContent204, DeleteFirst(follows, l))
      else (BadRequest400, follows)
  }

  /** For a user that exists and a relation that keeps its constraint, the
      two trees' unsubscribe views agree. */
  lemma DeleteAgreesWithMainTree(users: map<nat, User>, follows: Table, requester: nat, followingId: nat)
    requires followingId in users && Unique(follows)
    ensures Delete(users, follows, requester, followingId) == FollowViews.Delete(follows, requester, followingId)
  {
    DeleteFirstOfUnique(follows, Link(requester, followingId));
  }

  /** For a key no user has, this tree answers 404 where the main tree
      answers 400. */
  lemma DeleteUnknownUserDiffers(users: map<nat, User>, follows: Table, requester: nat, followingId: nat)
    requires FollowViews.FollowsReferenceUsers(users, follows) && followingId !in users
    ensures Delete(users, follows, requester, followingId).0 == NotFound404
    ensures FollowViews.Delete(follows, requester, followingId).0 == BadRequest400
  {
    FollowViews.DeleteUnknownUserIs400(users, follows, requester, followingId);
  }

  /** `FollowersList.get_queryset` is the main tree's filter; every row it
      lists is rendered as subscribed, since the requester follows each
      listed user by construction. */
  lemma ListedRowsAreSubscribed(follows: Table, requester: nat)
    ensures forall l :: l in FollowViews.FollowersList(follows, requester) ==>
      AccountSerializers.SubscribedTo(follows, requester, l.target)
  {
    forall l | l in FollowViews.FollowersList(follows, requester)
      ensures AccountSerializers.SubscribedTo(follows, requester, l.target)
    {
      assert l == Link(requester, l.target);
    }
  }

  /** Rendered through `FollowersSerializer`, every listed row shows its
      user as subscribed, with the user's recipe count; the list itself
      never holds the requester, who cannot follow themselves. */
  lemma ListedRowsRenderSubscribed(
    storageUrl: string -> string, users: map<nat, User>, avatars: map<nat, Avatar>, recipes: seq<Recipe>, follows: Table,
    requester: nat, limit: Option<nat>)
    requires FollowViews.FollowsValid(users, follows)
    ensures forall l :: l in FollowViews.FollowersList(follows, requester) ==>
      && l.target in users && l.target != requester
      && AccountSerializers.RepresentFollow(storageUrl, users, avatars, recipes, follows, requester, l, limit).isSubscribed
      && AccountSerializers.RepresentFollow(storageUrl, users, avatars, recipes, follows, requester, l, limit).recipesCount
           == |AuthoredBy(recipes, l.target)|
  {
    forall l | l in FollowViews.FollowersList(follows, requester)
      ensures l.target in users && l.target != requester
      ensures AccountSerializers.RepresentFollow(storageUrl, users, avatars, recipes, follows, requester, l, limit).isSubscribed
    {
      assert l == Link(requester, l.target);
    }
  }
}
